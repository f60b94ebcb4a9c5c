/** The content-stream walker of the inventory report: a single object whose fields are saved
    and restored around every form. */
module InventoryWalk {
  import opened PdfContent

  const MAX_FORMS: nat := 8

  datatype State = State(res: Resources, ctm: Matrix, stack: seq<Matrix>, ops: seq<Obj>, inForm: set<Ref>,
      formDepth: nat)

  datatype Outcome = Outcome(st: State, events: seq<Event>)

  function Last(ops: seq<Obj>, k: nat): seq<Obj>
    requires k <= |ops|
  {
    ops[|ops| - k..]
  }

  /** The matrix part of every operator but `Do`. */
  function Plain(st: State, op: Op): State {
    match op
    case Save => st.(stack := st.stack + [st.ctm])
    case Restore =>
      if st.stack == [] then st
      else st.(ctm := st.stack[|st.stack| - 1], stack := st.stack[..|st.stack| - 1])
    case Concat => if |st.ops| >= 6 then st.(ctm := Mul(MatrixOf(Last(st.ops, 6)), st.ctm)) else st
    case _ => st
  }

  /** `doXObject` with the `run` of a form. The operands survive the inner run as it left them:
      `run` restores the resources, the matrix and the stack, and nothing else. */
  function Draw(g: Graph, st: State): (out: Outcome)
    ensures out.st.(ops := st.ops) == st
    decreases MAX_FORMS - st.formDepth, 0, 0
  {
    if st.ops == [] || !Last(st.ops, 1)[0].Name? || !Resolves(g, st.res, Last(st.ops, 1)[0].name) then Outcome(st, [])
    else
      var x := st.res.xobjects[Last(st.ops, 1)[0].name];
      match g[x]
      case Image => Outcome(st, [ImageDrawn(x, st.ctm, st.formDepth)])
      case Form(matrix, own, content) =>
        if st.formDepth < MAX_FORMS && x !in st.inForm then
          var inner := Run(g, Entered(st, x, matrix, own), content);
          Outcome(inner.st.(res := st.res, ctm := st.ctm, stack := st.stack,
                            formDepth := inner.st.formDepth - 1, inForm := inner.st.inForm - {x}),
                  inner.events)
        else Outcome(st, [])
      case OtherStream => Outcome(st, [])
  }

  /** The fields at the start of a form: the caller's operands are still there. */
  function Entered(st: State, x: Ref, matrix: seq<Obj>, own: Resources): State {
    State(FormResources(own, st.res), if |matrix| == 6 then Mul(MatrixOf(matrix), st.ctm) else st.ctm,
          [], st.ops, st.inForm + {x}, st.formDepth + 1)
  }

  /** The name on top of the operands leads to an object. */
  predicate Targets(g: Graph, st: State, x: Ref) {
    && st.ops != [] && st.ops[|st.ops| - 1].Name?
    && Resolves(g, st.res, st.ops[|st.ops| - 1].name)
    && x == st.res.xobjects[st.ops[|st.ops| - 1].name]
  }

  lemma FormDrawn(g: Graph, st: State, x: Ref)
    requires Targets(g, st, x) && x in g && g[x].Form? && st.formDepth < MAX_FORMS && x !in st.inForm
    ensures var inner := Run(g, Entered(st, x, g[x].matrix, g[x].resources), g[x].content);
            && Draw(g, st).events == inner.events
            && Draw(g, st).st == inner.st.(res := st.res, ctm := st.ctm, stack := st.stack,
                                           formDepth := inner.st.formDepth - 1, inForm := inner.st.inForm - {x})
  {
    hide Run, Entered;
  }

  lemma NothingDrawn(g: Graph, st: State)
    requires st.ops != [] && st.ops[|st.ops| - 1].Name? && !Resolves(g, st.res, st.ops[|st.ops| - 1].name)
    ensures Draw(g, st) == Outcome(st, [])
  {
  }

  lemma NoFormDrawn(g: Graph, st: State, x: Ref)
    requires Targets(g, st, x) && x in g && (g[x].Form? ==> !(st.formDepth < MAX_FORMS && x !in st.inForm))
    ensures Draw(g, st) == Outcome(st, if g[x] == Image then [ImageDrawn(x, st.ctm, st.formDepth)] else [])
  {
    hide Run, Entered;
  }

  function Step(g: Graph, st: State, t: Token): (out: Outcome)
    ensures out.st.res == st.res && out.st.inForm == st.inForm && out.st.formDepth == st.formDepth
    decreases MAX_FORMS - st.formDepth, 0, 1
  {
    match t
    case Operand(o) => Outcome(st.(ops := st.ops + [o]), [])
    case Operator(op) =>
      var out := if op == Invoke then Draw(g, st) else Outcome(Plain(st, op), []);
      Outcome(out.st.(ops := []), out.events)
  }

  /** A run leaves the resources, the set of open forms and the form depth as it found them. */
  function Run(g: Graph, st: State, ts: seq<Token>): (out: Outcome)
    ensures out.st.res == st.res && out.st.inForm == st.inForm && out.st.formDepth == st.formDepth
    decreases MAX_FORMS - st.formDepth, |ts|, 2
  {
    if ts == [] then Outcome(st, [])
    else
      var first := Step(g, st, ts[0]);
      var rest := Run(g, first.st, ts[1..]);
      Outcome(rest.st, first.events + rest.events)
  }

  function Start(res: Resources): State {
    State(res, IDENTITY, [], [], {}, 0)
  }

  /** `buildInventory` on one page. */
  function InventoryPage(g: Graph, res: Resources, content: seq<Token>): seq<Event> {
    Run(g, Start(res), content).events
  }

  class InvWalker {
    var events: seq<Event>
    var formDepth: nat
    var res: Resources
    var ctm: Matrix
    var stack: seq<Matrix>
    var ops: seq<Obj>
    var inForm: set<Ref>

    constructor (res: Resources)
      ensures St() == Start(res) && events == []
    {
      events, formDepth, this.res, ctm, stack, ops, inForm := [], 0, res, IDENTITY, [], [], {};
    }

    function St(): State
      reads this
    {
      State(res, ctm, stack, ops, inForm, formDepth)
    }

    /** `handleObject`. */
    method HandleObject(g: Graph, t: Token)
      modifies this
      ensures var out := Step(g, old(St()), t);
              St() == out.st && events == old(events) + out.events
      decreases MAX_FORMS - formDepth, 0, 1
    {
      hide Mul, MatrixOf;
      match t {
        case Operand(o) =>
          ops := ops + [o];
        case Operator(op) =>
          if op == Save {
            stack := stack + [ctm];
          } else if op == Restore && stack != [] {
            ctm, stack := stack[|stack| - 1], stack[..|stack| - 1];
          } else if op == Concat && |ops| >= 6 {
            ctm := Mul(MatrixOf(ops[|ops| - 6..]), ctm);
          } else if op == Invoke && ops != [] && ops[|ops| - 1].Name? && res.Resources? {
            DoXObject(g, ops[|ops| - 1].name);
          }
          ops := [];
      }
    }

    method DoXObject(g: Graph, name: string)
      requires ops != [] && ops[|ops| - 1] == Name(name)
      modifies this
      ensures var out := Draw(g, old(St()));
              St() == out.st && events == old(events) + out.events
      decreases MAX_FORMS - formDepth, 0, 0
    {
      hide Mul, MatrixOf, FormResources, Run, Draw;
      if !Resolves(g, res, name) {
        NothingDrawn(g, St());
        return;
      }
      var x := res.xobjects[name];
      if g[x].Form? && formDepth < MAX_FORMS && x !in inForm {
        FormDrawn(g, St(), x);
        var m := if |g[x].matrix| == 6 then Mul(MatrixOf(g[x].matrix), ctm) else ctm;
        inForm := inForm + {x};
        formDepth := formDepth + 1;
        RunStream(g, FormResources(g[x].resources, res), m, g[x].content);
        formDepth := formDepth - 1;
        inForm := inForm - {x};
      } else {
        NoFormDrawn(g, St(), x);
        if g[x] == Image {
          events := events + [ImageDrawn(x, ctm, formDepth)];
        }
      }
    }

    /** `run`: the resources, the matrix and the stack are put back afterwards. */
    method RunStream(g: Graph, inside: Resources, m: Matrix, content: seq<Token>)
      modifies this
      ensures var inner := Run(g, old(St()).(res := inside, ctm := m, stack := []), content);
              && St() == inner.st.(res := old(res), ctm := old(ctm), stack := old(stack))
              && events == old(events) + inner.events
      decreases MAX_FORMS - formDepth, |content|, 3
    {
      hide Run;
      var saveRes, saveCtm, saveStack := res, ctm, stack;
      res, ctm, stack := inside, m, [];
      ParseContents(g, content);
      res, ctm, stack := saveRes, saveCtm, saveStack;
    }

    /** The parser's loop over one stream. */
    method ParseContents(g: Graph, ts: seq<Token>)
      modifies this
      ensures var out := Run(g, old(St()), ts);
              St() == out.st && events == old(events) + out.events
      decreases MAX_FORMS - formDepth, |ts|, 2
    {
      if ts != [] {
        HandleObject(g, ts[0]);
        ParseContents(g, ts[1..]);
      }
    }
  }
}
