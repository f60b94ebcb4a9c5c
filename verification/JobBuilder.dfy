/** The validator accepts what the builder builds. */
module JobBuilder {
  import opened Optional
  import opened Jobs

  /** `part` stands in `all` at position `i`. */
  ghost predicate At(all: seq<Arg>, i: nat, part: seq<Arg>) {
    i + |part| <= |all| && forall k | 0 <= k < |part| :: all[i + k] == part[k]
  }

  lemma AtSplit(all: seq<Arg>, i: nat, a: seq<Arg>, b: seq<Arg>)
    requires At(all, i, a + b)
    ensures At(all, i, a) && At(all, i + |a|, b)
  {
    assert forall k | 0 <= k < |a| :: (a + b)[k] == a[k];
    forall k | 0 <= k < |b|
      ensures all[i + |a| + k] == b[k]
    {
      assert (a + b)[|a| + k] == b[k];
    }
  }

  /** The flags that options before position `n` of the table may have used. */
  ghost predicate SeenBefore(seen: set<string>, n: nat)
    requires n <= FLAG_COUNT
  {
    forall k | n <= k < FLAG_COUNT :: FLAGS[k] !in seen
  }

  lemma SeenGrows(seen: set<string>, n: nat)
    requires n < FLAG_COUNT && SeenBefore(seen, n)
    ensures SeenBefore(seen + {FLAGS[n]}, n + 1) && SeenBefore(seen, n + 1)
  {
    hide FLAGS;
    FlagsDistinct();
  }

  /** The password, if any, is one the validator admits. */
  predicate PasswordFits(req: Request) {
    Password(req).Some? ==> PasswordOk(Password(req).value)
  }

  /** An option that the builder wrote is read by the validator as that option, except for a
      password that is too long or holds a NUL. */
  lemma PieceRead(req: Request, site: Site, n: nat, site': Site, all: seq<Arg>, i: nat)
    requires n < FLAG_COUNT && site'.bundled == site.bundled && site'.files.Some?
    requires var p := Piece(req, site, n);
             p.Built? && p.args != [] && p.stored <= site'.files.value && At(all, i, p.args)
    ensures var p := Piece(req, site, n);
            && LitAt(all, i) && all[i].text == FLAGS[n]
            && ReadOption(site', all, i) ==
               if n == PASSWORD_AT && !PasswordFits(req) then Stop(InvalidValue("--password")) else Next(i + |p.args|)
  {
    hide FLAGS, FlagIndex, ValueOk, PasswordOk, IdPart, Get, IsTrue, IsText;
    FlagsDistinct();
    var p := Piece(req, site, n);
    assert all[i + 0] == p.args[0];
    FlagIndexOf(n);
    PasswordFlag();
    if |p.args| > 1 {
      assert all[i + 1] == p.args[1];
    }
  }

  lemma PasswordFlag()
    ensures FLAGS[PASSWORD_AT] == "--password"
  {
  }

  lemma {:induction false} PiecesRead(req: Request, site: Site, n: nat, site': Site, all: seq<Arg>, i: nat,
      seen: set<string>)
    requires n <= FLAG_COUNT && SeenBefore(seen, n)
    requires site'.bundled == site.bundled && site'.files.Some?
    requires var b := PiecesFrom(req, site, n);
             && b.Built? && b.stored <= site'.files.value && At(all, i, b.args)
             && i + |b.args| < |all| && !all[i + |b.args|].Lit?
    ensures Options(site', all, i, seen) ==
            if n <= PASSWORD_AT && !PasswordFits(req) then Stop(InvalidValue("--password"))
            else Next(i + |PiecesFrom(req, site, n).args|)
    decreases FLAG_COUNT - n
  {
    hide Piece, ReadOption, FLAGS, PasswordOk;
    FlagsDistinct();
    if n < FLAG_COUNT {
      var p, rest := Piece(req, site, n), PiecesFrom(req, site, n + 1);
      AtSplit(all, i, p.args, rest.args);
      SeenGrows(seen, n);
      if p.args == [] {
        NoPassword(req, site, n);
        PiecesRead(req, site, n + 1, site', all, i, seen);
      } else {
        PieceRead(req, site, n, site', all, i);
        if n != PASSWORD_AT || PasswordFits(req) {
          PiecesRead(req, site, n + 1, site', all, i + |p.args|, seen + {FLAGS[n]});
        }
      }
    }
  }

  lemma NoPassword(req: Request, site: Site, n: nat)
    requires n < FLAG_COUNT && Piece(req, site, n).Built? && Piece(req, site, n).args == []
    ensures n == PASSWORD_AT ==> PasswordFits(req)
  {
    hide FLAGS;
  }

  /** For every request whose arguments can be built, with the input and the stored files in the job
      directory: the validator accepts the job if and only if the password, if there is one, is
      admissible. In particular no option is ever repeated or misread. */
  lemma BuilderComplete(req: Request, kind: Kind, site: Site, input: string, files: set<string>)
    requires kind != Verify && input in {"in.pdf", "in.jpg"} && input in files
    requires var b := Build(req, kind, site);
             b.Built? && b.stored <= files
    ensures var job := JobArgs(Build(req, kind, site).args, kind, input);
            var verdict := Validate(kind, job, Site(Some(files), site.bundled));
            if PasswordFits(req) then verdict == Accepted else verdict == Refused(InvalidValue("--password"))
  {
    hide PiecesFrom, Options, LevelOk, Get, PasswordOk, FLAGS;
    var level, pieces := Get(req, "level").value, PiecesFrom(req, site, 0);
    var head, tail := Head(kind, level), [File(input)] + if kind == Convert then [Out("out.pdf")] else [];
    var job, site' := JobArgs(Build(req, kind, site).args, kind, input), Site(Some(files), site.bundled);
    assert job == head + pieces.args + tail;
    assert At(job, |head|, pieces.args);
    var end := |head| + |pieces.args|;
    assert job[end] == tail[0] == File(input);
    PiecesRead(req, site, 0, site', job, |head|, {});
  }

  /** The same for the job that only verifies a password. */
  lemma VerifyJobAccepted(req: Request, site: Site, files: set<string>)
    requires "in.pdf" in files
    ensures var verdict := Validate(Verify, VerifyArgs(req), Site(Some(files), site.bundled));
            if req.password.Some? && req.password.value != "" && !PasswordOk(req.password.value)
            then verdict == Refused(InvalidValue("--password")) else verdict == Accepted
  {
  }

  // ----- a request that is built and refused -----

  /** Only a level and a password field that holds a NUL. */
  function NulRequest(): Request {
    Request([("level", "2b")], map["password" := Text("\0")], None, _ => true)
  }

  lemma NothingElse(k: string)
    requires k != "level" && k != "password"
    ensures Get(NulRequest(), k) == None && QueryGet(NulRequest().query, k) == None && k !in NulRequest().fields
  {
    var q := NulRequest().query;
    assert q[1..] == [] && q[0].0 == "level";
    assert QueryGet(q[1..], k) == None;
    assert QueryGet(q, k) == None;
  }

  lemma KeysApart(n: nat)
    requires n < FLAG_COUNT
    ensures n < TEXT_START ==> BOOL_KEYS[n] != "level" && BOOL_KEYS[n] != "password"
    ensures TEXT_START <= n < PASSWORD_AT ==>
              TEXT_KEYS[n - TEXT_START] != "level" && TEXT_KEYS[n - TEXT_START] != "password"
    ensures FILE_START <= n ==> FILE_KEYS[n - FILE_START] != "level" && FILE_KEYS[n - FILE_START] != "password"
  {
  }

  lemma NulPiece(site: Site, n: nat)
    requires n < FLAG_COUNT
    ensures Piece(NulRequest(), site, n).Built? && Piece(NulRequest(), site, n).stored == {}
  {
    hide Get, QueryGet, NulRequest, FLAGS, BOOL_KEYS, TEXT_KEYS, FILE_KEYS, FILE_NAMES, IsText, ValueOk;
    FlagsDistinct();
    KeyCounts();
    KeysApart(n);
    if n < TEXT_START {
      NothingElse(BOOL_KEYS[n]);
    } else if n < PASSWORD_AT {
      NothingElse(TEXT_KEYS[n - TEXT_START]);
    } else if n == PROFILE_AT {
      NothingElse("profile");
    } else if n >= FILE_START {
      NothingElse(FILE_KEYS[n - FILE_START]);
    }
  }

  lemma KeyCounts()
    ensures |BOOL_KEYS| == TEXT_START && |TEXT_KEYS| == PASSWORD_AT - TEXT_START
    ensures |FILE_KEYS| == |FILE_NAMES| == FLAG_COUNT - FILE_START
  {
  }

  lemma {:induction false} NulPieces(site: Site, n: nat)
    requires n <= FLAG_COUNT
    ensures PiecesFrom(NulRequest(), site, n).Built? && PiecesFrom(NulRequest(), site, n).stored == {}
    decreases FLAG_COUNT - n
  {
    hide Piece, NulRequest;
    if n < FLAG_COUNT {
      NulPiece(site, n);
      NulPieces(site, n + 1);
    }
  }

  /** The builder takes a password with a NUL, the validator does not. */
  lemma NulPasswordRefused(site: Site)
    ensures var b := Build(NulRequest(), Convert, site);
            && b.Built?
            && Validate(Convert, JobArgs(b.args, Convert, "in.pdf"), Site(Some({"in.pdf"}), site.bundled)) ==
               Refused(InvalidValue("--password"))
  {
    var req := NulRequest();
    assert QueryGet(req.query, "level") == Some("2b");
    assert LEVELS[2] == "2b";
    assert Password(req) == Some("\0") && '\0' in "\0";
    NulPieces(site, 0);
    hide PiecesFrom, Validate, NulRequest, PasswordOk;
    BuilderComplete(req, Convert, site, "in.pdf", {"in.pdf"});
  }
}
