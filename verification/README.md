# A verified model of Kura's tools, service and generators

Kura converts, checks and reports on PDF files. This project models the parts of it whose
correctness cannot be read off one function: the two content-stream walkers of the command-line
tools and the dieline extractor on top of one of them, document parts, the certification digest,
the XML report and its parser, text wrapping, page lists and PNG chunks, the path normaliser, the
job builder, the job validator and the admission queue of the HTTP service, the argument loop and
the batch pool of the command line, the Windows argument quoter, the generator of "number above n"
expressions and the JavaScript number printer.

Each part has the shape of its source. Code that computes a value is a function. Code that works
by assignment is a method or a class; its `ensures` equates the result or the new state with a
function of the old one, and the lemmas are about that function. Protocols between threads are
state machines whose steps are the atomic operations, and their theorems quantify over every run.
Coordinates and widths are exact numbers, not floating point.

| file | holds |
|---|---|
| `PdfContent` | PDF objects, operators, matrices and graphics state |
| `ContentWalk`, `ContentOperators` | the walker of the extraction tools, and its operators by their spelling |
| `InventoryWalk`, `WalkerAgreement` | the walker of the inventory report, and the simulation of one by the other |
| `PrintedNumber`, `Dieline`, `DielineComplete` | printed coordinates, dieline extraction, and which paths it finds |
| `DielineStability`, `DielineSketch`, `DielineExactPages` | what a second extraction sees, and for which pages it sees the same |
| `DocumentParts`, `DocumentPartsRoundTrip`, `DocumentPartsLeaves` | writing and reading document parts, and their page numbers |
| `Digest`, `DigestInvariance`, `DigestSensitive` | the bytes behind a certificate, rewriting, and what changes them |
| `XmlParser`, `XmlRoundTrip`, `XmlMarkup` | the XML parser, element trees, and the markup that reports do not use |
| `XmlReport`, `XmlRender`, `XmlOwnReport` | reports, their text, the program's own ones |
| `TextWrap`, `TextWrapMinimal`, `PageList`, `PngChunk`, `Octet` | report text, page ranges, PNG |
| `PathNormalize` | URL paths |
| `Jobs`, `JobBuilder`, `JobOptions`, `JobGrammar`, `JobValues` | jobs: the validator and the builder, by parameters, argument lists and values |
| `Cli`, `CliCourse`, `JobLockstep` | the command line, its course, and the jobs it reads |
| `Admission`, `BatchPool` | concurrent protocols |
| `WinQuote`, `AboveRegex`, `JsNumber` | quoting, regular expressions, numbers |
| `Decimal`, `Concatenation`, `Optional` | shared vocabulary |

`dafny verify dfyconfig.toml` checks everything.

## What was found

Each of these failures has a lemma at a concrete input, and beside it the condition under which the
code does what is expected.

- Dieline extraction is not stable in general: `num` rounds to three decimals and cuts at 31
  characters (`FineCoordinateIsLost`). It is stable exactly when every number that is written prints
  exactly (`ExtractionStableIff`), which a sketch of the page decides that follows only matrices,
  colour spaces and paths (`StableIffSketchExact`). `DrawingStable` gives a bound to check for whole
  scalings, turns and translations, and the second extraction always writes the same page as the
  first (`WrittenPageIsFixedPoint`).
- The walkers differ if a form holds a bare `Do`: the inventory walker still has the operand that
  opened the form (`StaleOperandDraws`). They also differ on nine nested forms around an image
  (`NinthFormIsMissed`). Where `cm` and `Do` are well formed on the page and in the forms it draws,
  they agree exactly when the graph leads to no image under more than eight forms (`WalkersAgreeIff`).
- The digest prints an indirect scalar by its object number, and so it does with a reference inside
  a page box, so renumbering changes it (`RenumberedScalarChangesDigest`,
  `RenumberedBoxChangesDigest`). It survives exactly when those numbers stay (`DigestSurvivesIff`).
- For the same reason the digest does not depend on the text of an indirect scalar
  (`IndirectScalarUnnoticed`), nor on anything below level 64. Any other single change of a scalar or
  of a stream's data changes the bytes exactly when a traversal reaches it (`ChangeNoticedIff`).
- `num` takes the zeros at the end of a whole number of 31 characters for decimals: 10^30 prints as 1
  (`LongNumbers`). Up to 10^25 it prints the nearest number of three decimals (`PrintedIsNearest`).
- A character reference beyond the basic plane is written with its lower 16 bits only
  (`Utf8Decodes`); the bytes stand for the code exactly below 65536 (`Utf8ExactIff`).
- An empty list of parts at level 64 is written but not read back (`EmptyListAtLimitIsLost`,
  `RoundTripIff`).
- `build_args` accepts passwords that `validate_job` refuses (`NulPasswordRefused`); nothing else it
  builds is refused (`BuilderComplete`).
- A request can be turned away although nobody waits, because a request that is just being turned
  away is still counted (`TurnedAwayThoughNobodyWaits`, `TurnedAwayIff`).
- A page list that starts with page 0 prints a dash and hides the rest of that range
  (`PageZeroHidesPages`, `PageList.ReadsBackIff`).

## Model

| member | source | states |
|---|---|---|
| `PdfContent.MulComposes` | pdfa-engine/cli/tool_output.cpp:205-215 | the matrix product is composition: applying `mul(x, y)` to a point is applying x and then y |
| `ContentWalk.Walk.constructor` | pdfa-engine/cli/tool_output.cpp:241-243 | a new walker has default colours, an empty stack, no operands and the given base matrix |
| `ContentWalk.Walk.HandleObject` | pdfa-engine/cli/tool_output.cpp:245-333 | one token changes the walker's fields and the sink exactly as the step relation of the specification |
| `ContentWalk.Walk.Act` | pdfa-engine/cli/tool_output.cpp:273-307 | every operator but Do: graphics state, stack, path and reported events |
| `ContentWalk.Walk.ChangeSpace` | pdfa-engine/cli/tool_output.cpp:268-272 | choosing a colour space resets that side's colour and reports the space |
| `ContentWalk.Walk.DrawObject` | pdfa-engine/cli/tool_output.cpp:308-331 | Do reports an image or everything a fresh walker meets in the form, and leaves this walker alone |
| `ContentWalk.Walk.ParseContents` | pdfa-engine/cli/tool_output.cpp:345-351 | a whole stream is the composition of the steps of its tokens |
| `ContentWalk.RunAppend` | pdfa-engine/cli/tool_output.cpp:245-333 | walking two streams in a row is walking the first and then the second from the state it left |
| `ContentWalk.BalancedKeepsStack` | pdfa-engine/cli/tool_output.cpp:273-277 | operators balanced in q and Q leave the stack below them untouched, whatever they do in between |
| `ContentWalk.BlockRestores` | pdfa-engine/cli/tool_output.cpp:273-277 | a q ... Q block around balanced operators restores the whole graphics state and the stack |
| `ContentOperators.SpellingOfOp` | pdfa-engine/cli/tool_output.cpp:273-308 | every text is the spelling of the operator it is read as, so no two operators are confused |
| `ContentOperators.PaintReported` | pdfa-engine/cli/tool_output.cpp:296-301 | from any state, for each of the ten spellings: S and s stroke, f, F and f* fill, B, B*, b and b* do both, n neither; the path and the state are reported and the path ends |
| `ContentOperators.DeviceSet` | pdfa-engine/cli/tool_output.cpp:282-286 | the six device operators set the named device space and the colour of their own side and report the space |
| `ContentOperators.ColorSet` | pdfa-engine/cli/tool_output.cpp:287-288 | the colour operators keep operands and spelling for their own side only |
| `ContentOperators.SpaceChosen` | pdfa-engine/cli/tool_output.cpp:261-272 | device names and /Pattern stand for themselves, other names for what the resources define, unknown ones for themselves |
| `ContentOperators.LineSet` | pdfa-engine/cli/tool_output.cpp:289-291 | a line setting keeps its operands; a width that is missing or no number is 0 |
| `ContentOperators.SegmentAdded` | pdfa-engine/cli/tool_output.cpp:292-295 | a path operator adds one segment of its kind with all operands as numbers |
| `ContentOperators.MatrixConcatenated` | pdfa-engine/cli/tool_output.cpp:278-279 | cm puts its matrix first: a point goes through the operands and then through the old matrix |
| `ContentOperators.SavedAndRestored` | pdfa-engine/cli/tool_output.cpp:274-277 | q saves the graphics state, Q takes the last one back, and Q on an empty stack does nothing |
| `ContentOperators.FontsAndInlineImages` | pdfa-engine/cli/tool_output.cpp:302-307 | a font is reported when the resources have it, an inline image at its end |
| `ContentOperators.OperandsMissing` | pdfa-engine/cli/tool_output.cpp:278-308 | operators without the operands they need only drop what they have |
| `ContentOperators.OtherOperator` | pdfa-engine/cli/tool_output.cpp:273-333 | every spelling outside the list only drops its operands |
| `ContentOperators.MatrixRead` | pdfa-engine/cli/tool_output.cpp:318-321 | six objects as a matrix, in order, 0 for one that is no number |
| `ContentOperators.PageWalked` | pdfa-engine/cli/tool_output.cpp:345-351 | a page starts at depth 0 under the identity matrix with gray, no colours and width 1 |
| `ContentOperators.ImageReported` | pdfa-engine/cli/tool_output.cpp:313-314 | an image is reported with the current matrix |
| `ContentOperators.FormWalked` | pdfa-engine/cli/tool_output.cpp:315-331 | a form that is not open, at depth 15 or less, is walked from a new state in its own or else the caller's resources, its matrix before the current one |
| `ContentOperators.ObjectPassedOver` | pdfa-engine/cli/tool_output.cpp:311-315 | an open form, a form at depth 16, any other stream and an unknown name report nothing |
| `InventoryWalk.InvWalker.constructor` | pdfa-engine/cli/tool_report.cpp:358-360 | the inventory walker starts at depth 0 under the identity matrix with no open form |
| `InventoryWalk.InvWalker.HandleObject` | pdfa-engine/cli/tool_report.cpp:481-501 | one token changes the fields as the step relation says; operands are dropped after every operator |
| `InventoryWalk.InvWalker.DoXObject` | pdfa-engine/cli/tool_report.cpp:506-553 | an image is noted under the current matrix; a form is entered unless it is open or eight are |
| `InventoryWalk.InvWalker.RunStream` | pdfa-engine/cli/tool_report.cpp:461-479 | resources, matrix and stack are put back after a stream; operands stay as the stream left them |
| `InventoryWalk.Run` | pdfa-engine/cli/tool_report.cpp:461-479 | a run of any stream of any graph, cyclic ones included, ends with the resources, the set of open forms and the depth it began with |
| `InventoryWalk.Draw` | pdfa-engine/cli/tool_report.cpp:506-553 | drawing changes nothing of the walker but the operands |
| `WalkerAgreement.RunAgrees` | pdfa-engine/cli/tool_report.cpp:461-532 | the simulation: coupled walkers, one holding any stale operands, meet the same images and end under the same matrix |
| `WalkerAgreement.RunStaysBelow` | pdfa-engine/cli/tool_output.cpp:308-331 | no walker reports an image at a smaller depth than its own |
| `WalkerAgreement.WalkersAgree` | pdfa-engine/cli/tool_report.cpp:461-532 | for every page and form graph, well-formed in cm and Do on the page and in the forms it draws, the inventory meets exactly the images Walk meets under at most eight forms, in order and under the same matrices |
| `WalkerAgreement.SameImagesIff` | pdfa-engine/cli/tool_report.cpp:461-532 | they meet the same images if and only if no image is drawn under more than eight forms |
| `WalkerAgreement.RunDeepIff` | pdfa-engine/cli/tool_output.cpp:308-331 | whether Walk meets an image under more than eight forms is decided by the names and the graph alone |
| `WalkerAgreement.WalkersAgreeIff` | pdfa-engine/cli/tool_report.cpp:461-532 | the walkers meet the same images if and only if the graph, cyclic or not, leads to no image under more than eight forms |
| `WalkerAgreement.WalkersAgreeWithinLimit` | pdfa-engine/cli/tool_report.cpp:461-532 | in particular wherever no chain of different forms is longer than eight, cyclic graphs included |
| `WalkerAgreement.NinthFormIsMissed` | pdfa-engine/cli/tool_report.cpp:524-530 | nine nested forms around an image: the inventory misses it |
| `WalkerAgreement.StaleOperandDraws` | pdfa-engine/cli/tool_report.cpp:481-503 | a bare Do in a form draws in the inventory and not in Walk: the demand on Do cannot be dropped |
| `PrintedNumber.PrintedExactIff` | pdfa-engine/cli/tool_output.cpp:66-75 | printing keeps a number if and only if it has at most three decimals and fits into 31 characters, and a printed number prints exactly |
| `PrintedNumber.PrintedIsNearest` | pdfa-engine/cli/tool_output.cpp:66-75 | up to 10^25 the printed number is the nearest one of three decimals, the even one of two |
| `PrintedNumber.LongNumbers` | pdfa-engine/cli/tool_output.cpp:66-75 | 10^30 is printed as 1 and -10^29 as -1; one digit less is exact |
| `Dieline.Extractor.OnPath` | pdfa-engine/cli/tool_output.cpp:567-614 | a painted path adds the items of its stroke and fill sides, and the content, the names and their order stay those of all items |
| `Dieline.Extractor.OnSide` | pdfa-engine/cli/tool_output.cpp:567-613 | one side adds an item exactly when a colourant of its space matches and the side is painted |
| `Dieline.Extractor.Append` | pdfa-engine/cli/tool_output.cpp:597-612 | one block is appended, under the name its colour space already has or a new one |
| `Dieline.FindHit` | pdfa-engine/cli/tool_output.cpp:572-575 | the colourant that is reported is the one the matching loop ends with |
| `Dieline.Collect` | pdfa-engine/cli/tool_output.cpp:562-615 | the events of a page give exactly its items, in order |
| `Dieline.ExtractPage` | pdfa-engine/cli/tool_output.cpp:562-629 | the page that is written consists of the blocks of the extracted items and names all their colour spaces |
| `Dieline.ContentExtends` | pdfa-engine/cli/tool_output.cpp:597-612 | colour spaces named later do not change blocks written earlier |
| `DielineComplete.StrokeFoundIff` | pdfa-engine/cli/tool_output.cpp:567-612 | a stroked path in a Separation or DeviceN space gives exactly one item, with the last matching name, the state's matrix, path and line settings and the operands or full ink as tint, and none if and only if no listed name matches (or the last that does is empty) |
| `DielineComplete.FillFoundIff` | pdfa-engine/cli/tool_output.cpp:567-612 | the same for a filled path |
| `DielineComplete.HitIsLast` | pdfa-engine/cli/tool_output.cpp:572-575 | the colourant found is the last listed name that matches, stated over the objects of the space |
| `DielineComplete.OtherSpaceGivesNothing` | pdfa-engine/cli/tool_output.cpp:530-539 | a space that lists no colourants gives no item |
| `DielineComplete.BothSides` | pdfa-engine/cli/tool_output.cpp:568-571 | a path stroked and filled counts once for either side, the stroke first, and no other report counts |
| `DielineComplete.ExtractSplits` | pdfa-engine/cli/tool_output.cpp:562-615 | the items of a page are those of its reports, each in its place |
| `DielineComplete.SpotPathFound` | pdfa-engine/cli/tool_output.cpp:562-615 | from operators to the item: a path drawn on a page in a named spot colour is extracted under every spelling of a paint operator that paints that side, and under no other |
| `DielineComplete.RectanglePoints` | pdfa-engine/cli/tool_output.cpp:579-592 | a rectangle is listed by its four corners in device space |
| `DielineComplete.PairPoints` | pdfa-engine/cli/tool_output.cpp:579-592 | any other segment by its pairs of numbers |
| `DielineComplete.LineOrderSorted` | pdfa-engine/cli/tool_output.cpp:611-611 | line settings are written in the order of their spellings |
| `DielineComplete.SpaceNamed` | pdfa-engine/cli/tool_output.cpp:597-604 | the spaces of a page are named /CS0, /CS1 and so on |
| `DielineStability.ExtractSound` | pdfa-engine/cli/tool_output.cpp:567-614 | every extracted item has a path, a matching colourant of its own space and settings in the order they are written |
| `DielineStability.SpaceNameResolves` | pdfa-engine/cli/tool_output.cpp:597-623 | each generated name resolves to its own colour space on the written page |
| `DielineStability.RunBlock` | pdfa-engine/cli/tool_output.cpp:541-614 | Walk reads an emitted block as one painted path with the block's matrix, colour and line settings and is left exactly as before |
| `DielineStability.ReextractionPrints` | pdfa-engine/cli/tool_output.cpp:541-614 | extracting from the written page gives the same items with every number as printed |
| `DielineStability.PrintedItemIff` | pdfa-engine/cli/tool_output.cpp:66-75 | an item equals its printed form if and only if all its numbers print exactly |
| `DielineStability.ExtractionStableIff` | pdfa-engine/cli/tool_output.cpp:541-614 | extraction is stable if and only if every number of every item prints exactly |
| `DielineStability.ReportedPathsStable` | pdfa-engine/cli/tool_output.cpp:576-614 | in that case the second extraction reports the same colourants, paint, device-space points, line settings and tints, in order |
| `DielineStability.WrittenPageIsFixedPoint` | pdfa-engine/cli/tool_output.cpp:541-614 | without any condition, extracting from the written page writes the same page again |
| `DielineSketch.RunSketched` | pdfa-engine/cli/tool_output.cpp:241-343 | a sketch that follows only matrices, colour spaces and paths meets exactly the painted paths of the walk, through forms of any nesting and cycles |
| `DielineSketch.StableIffSketchExact` | pdfa-engine/cli/tool_output.cpp:541-614 | extraction is stable if and only if, on that sketch, every matrix and path number painted in an extracted colour prints exactly |
| `DielineExactPages.PageStable` | pdfa-engine/cli/tool_output.cpp:273-333 | counting over q, Q, cm and Do: matrices of a graded family, no chain longer than the grade up to which the family prints exactly, and exact path numbers make the extraction stable |
| `DielineExactPages.DrawingStable` | pdfa-engine/cli/tool_output.cpp:273-333 | whole scalings and turns whose rows add up to at most s, with translations of three decimals of at most b, are such a family up to n as long as n b s^n stays below 10^26 |
| `DielineExactPages.PlacedPageStable` | pdfa-engine/cli/tool_output.cpp:273-333 | a page with a translation and a scaling that meets the bound |
| `DielineStability.FineCoordinateIsLost` | pdfa-engine/cli/tool_output.cpp:541-614 | a page with a coordinate of four decimals on which the second extraction differs |
| `DocumentParts.Document.BuildDpart` | pdfa-engine/cli/tool_output.cpp:682-708 | the dictionaries after building a subtree, the count and the error are those of the specification |
| `DocumentParts.Document.BuildChildren` | pdfa-engine/cli/tool_output.cpp:688-700 | children are made, linked to the parent, built in order and listed in one inner array |
| `DocumentParts.Document.StampPages` | pdfa-engine/cli/tool_output.cpp:706-706 | the pages of a range point at its node and no other object changes |
| `DocumentParts.Document.SetDparts` | pdfa-engine/cli/tool_output.cpp:710-736 | old /DPart entries go, then the root dictionary, the root node and the tree are written |
| `DocumentParts.ReadNode` | pdfa-engine/cli/tool_output.cpp:642-669 | reading gives the tree of a node over all inner arrays; below level 64 lists are not followed |
| `DocumentPartsRoundTrip.BuildsIff` | pdfa-engine/cli/tool_output.cpp:682-708 | building succeeds if and only if no node is deeper than 64 and every leaf is a range 1 <= start <= end <= page count |
| `DocumentPartsRoundTrip.Builds` | pdfa-engine/cli/tool_output.cpp:682-708 | the count is the size of the tree, nodes are numbered in order, the new objects hold the tree and only the pages of its leaves change |
| `DocumentPartsRoundTrip.DocumentWritten` | pdfa-engine/cli/tool_output.cpp:710-736 | for whole documents: success iff valid, count = tree size, every other object unchanged, every page pointing at the last leaf that covers it |
| `DocumentPartsRoundTrip.ReadsBackIff` | pdfa-engine/cli/tool_output.cpp:642-669 | a tree held by the objects reads back as its description if and only if no list of parts sits at level 64 |
| `DocumentPartsRoundTrip.RoundTripIff` | pdfa-engine/cli/tool_output.cpp:642-736 | reading what was written gives the tree back under that same condition and no other |
| `DocumentPartsRoundTrip.EmptyListAtLimitIsLost` | pdfa-engine/cli/tool_output.cpp:642-669 | a description, 64 nested lists around an empty one, that is written and reads back as something else |
| `DocumentPartsRoundTrip.NoOwnerIff` | pdfa-engine/cli/tool_output.cpp:706-706 | a page has no owner if and only if no leaf covers it |
| `DocumentPartsRoundTrip.OwnerIsLast` | pdfa-engine/cli/tool_output.cpp:706-706 | a page's owner is the last leaf in order that covers it |
| `DocumentPartsRoundTrip.OwnerIsOnly` | pdfa-engine/cli/tool_output.cpp:706-706 | if leaves do not overlap it is the only one |
| `DocumentPartsRoundTrip.PagesOwned` | pdfa-engine/cli/tool_output.cpp:704-715 | with disjoint leaves each page points at exactly its covering leaf, a node holding that range; an uncovered page points at nothing |
| `DocumentPartsRoundTrip.ParentsLinked` | pdfa-engine/cli/tool_output.cpp:689-700 | every child names as its parent the node that lists it |
| `DocumentPartsLeaves.TruncNearest` | pdfa-engine/cli/tool_output.cpp:702-702 | a JSON number becomes the whole number between 0 and it that is nearest to it |
| `DocumentPartsLeaves.DescribedRoundTripIff` | pdfa-engine/cli/tool_output.cpp:642-736 | for every tree and every description of it by JSON numbers, ends omitted or not: written if and only if the ranges lie within the pages and no node is below level 64, and read back as that tree if and only if no list stands at level 64 |
| `DocumentPartsLeaves.PagesInTheirParts` | pdfa-engine/cli/tool_output.cpp:702-706 | a page points at a part if and only if a range of the description covers it, and the part it points at reads as a range that contains the page |
| `DocumentPartsLeaves.SingleRange` | pdfa-engine/cli/tool_output.cpp:682-708 | a description of one range, its end given or not, is written, reads back with its page numbers, and exactly its pages point at it |
| `DocumentPartsLeaves.RangeRefused` | pdfa-engine/cli/tool_output.cpp:702-703 | a range that starts before page 1, ends before its start or beyond the last page, or has no start, is refused with its numbers |
| `DocumentPartsLeaves.NestingLimit` | pdfa-engine/cli/tool_output.cpp:683-683 | 64 nested lists around a page are written, 65 are not |
| `Digest.Hasher.HashObj` | pdfa-engine/cli/tool_report.cpp:1295-1335 | the bytes fed and the references seen are those of the specification; recursion ends on every graph |
| `Digest.Hasher.HashEach` | pdfa-engine/cli/tool_report.cpp:1304-1331 | the parts of a container are fed in order, each behind its key |
| `Digest.Hasher.HashPage` | pdfa-engine/cli/tool_report.cpp:1344-1360 | a page feeds its content, its boxes and its resources |
| `Digest.FeedDocument` | pdfa-engine/cli/tool_report.cpp:1337-1363 | the bytes that are hashed for a document |
| `Digest.EachBodyOnce` | pdfa-engine/cli/tool_report.cpp:1295-1363 | on every graph, cyclic ones included, each indirect body is fed at most once |
| `DigestInvariance.ValueLockstep` | pdfa-engine/cli/tool_report.cpp:1295-1335 | on renamed graphs both traversals feed the same bytes and visit corresponding objects until a scalar whose number changed |
| `DigestInvariance.RefTextsDiverge` | pdfa-engine/cli/tool_report.cpp:1332-1334 | references to different objects print texts that differ at a place that both have, whatever follows |
| `DigestInvariance.PrintsInStep` | pdfa-engine/cli/tool_report.cpp:1355-1358 | the text of a page attribute before and after a renaming is equal or differs at a place that both have, as its references keep their numbers or not |
| `DigestInvariance.DigestSurvivesIff` | pdfa-engine/cli/tool_report.cpp:1295-1363 | rewriting under any renaming keeps the bytes if and only if every visited indirect scalar and every reference printed in a page attribute keeps its number |
| `DigestInvariance.DigestSurvivesRenumbering` | pdfa-engine/cli/tool_report.cpp:1295-1363 | the bytes survive any renaming if every visited indirect object is a dictionary, array or stream and no page attribute holds a reference |
| `DigestInvariance.RenumberedScalarChangesDigest` | pdfa-engine/cli/tool_report.cpp:1332-1334 | a document and a renumbering of a number it refers to that changes the bytes |
| `DigestInvariance.RenumberedBoxChangesDigest` | pdfa-engine/cli/tool_report.cpp:1355-1358 | the same with a reference in a media box, although the traversal visits nothing |
| `DigestInvariance.CertifyingKeepsDigest` | pdfa-engine/cli/tool_report.cpp:1580-1610 | storing the certificate changes no byte if the digest depends neither on the object that gets the entry nor on the new one |
| `DigestInvariance.CertifiedVerifiesIff` | pdfa-engine/cli/tool_report.cpp:1655-1657 | certifying, writing under any renumbering and verifying compares equal digests if and only if the visited scalars and the references in page attributes kept their numbers |
| `DigestSensitive.ChangeNoticedIff` | pdfa-engine/cli/tool_report.cpp:1295-1335 | changing one scalar or one stream's data anywhere in the direct structure of an object changes the bytes if and only if a traversal reaches that place at level 64 or above |
| `DigestSensitive.ValueForks` | pdfa-engine/cli/tool_report.cpp:1295-1335 | a change of one object passes through every traversal: the bytes diverge where it is reached and agree elsewhere |
| `DigestSensitive.StreamDataNoticedIff` | pdfa-engine/cli/tool_report.cpp:1304-1319 | other data in a stream, of any length, changes the bytes if and only if the stream is visited |
| `DigestSensitive.PageContentNoticed` | pdfa-engine/cli/tool_report.cpp:1344-1354 | any other content of any page changes the bytes |
| `DigestSensitive.ResourcesNoticedIff` | pdfa-engine/cli/tool_report.cpp:1359-1359 | a change in the direct structure of a page's resources is noticed down to level 64 |
| `DigestSensitive.AttributeNoticed` | pdfa-engine/cli/tool_report.cpp:1355-1358 | a media box, crop box or rotation that prints another text changes the bytes |
| `DigestSensitive.BoxTextsDiverge` | pdfa-engine/cli/tool_report.cpp:1355-1358 | boxes that differ in one number print such texts |
| `DigestSensitive.IndirectScalarUnnoticed` | pdfa-engine/cli/tool_report.cpp:1332-1334 | an indirect scalar is hashed by its number, so another text in it changes nothing |
| `DigestSensitive.SkippedEntryUnnoticed` | pdfa-engine/cli/tool_report.cpp:1320-1326 | entries under /Parent and /P of a dictionary change nothing |
| `DigestSensitive.SkippedStreamEntryUnnoticed` | pdfa-engine/cli/tool_report.cpp:1306-1311 | nor do those under /Length, /Filter, /DecodeParms, /Parent and /P of a stream |
| `DigestSensitive.OnePageBytes` | pdfa-engine/cli/tool_report.cpp:1337-1363 | the labels of a page and their order |
| `DigestSensitive.StreamBytes` | pdfa-engine/cli/tool_report.cpp:1304-1319 | a stream feeds its mark, its size and its data |
| `DigestSensitive.OneEntry` | pdfa-engine/cli/tool_report.cpp:1320-1327 | a dictionary feeds its key before its value |
| `DigestSensitive.Marks` | pdfa-engine/cli/tool_report.cpp:1299-1302 | a reference seen before is marked R, anything below level 64 D |
| `DigestSensitive.AttributePrinted` | pdfa-engine/cli/tool_report.cpp:1355-1358 | an attribute prints the object it refers to, a stream as its reference, and null for nothing |
| `XmlParser.HtmlEsc` | pdfa-engine/cli/tool_report.cpp:923-933 | escapes exactly `<`, `>`, `&` and `"`, and keeps every other character |
| `XmlParser.XmlUnescape` | pdfa-engine/cli/tool_report.cpp:652-682 | replaces exactly the named and numeric entities, a code in one to three bytes, and keeps everything else |
| `XmlParser.ScanTag` | pdfa-engine/cli/tool_report.cpp:706-713 | a tag ends at the first > outside quotes |
| `XmlParser.ReadAttributes` | pdfa-engine/cli/tool_report.cpp:722-734 | the attributes of a tag, later ones replacing earlier ones of the same name |
| `XmlParser.ReadTag` | pdfa-engine/cli/tool_report.cpp:714-734 | the node a tag describes |
| `XmlParser.ParseElement` | pdfa-engine/cli/tool_report.cpp:705-738 | one element with its children, or failure |
| `XmlParser.ParseXml` | pdfa-engine/cli/tool_report.cpp:684-741 | accepts, advances and fills the node as the grammar function says; ends on every text |
| `XmlRoundTrip.UnescapeEscape` | pdfa-engine/cli/tool_report.cpp:652-682 | unescaping undoes escaping for every string |
| `XmlRoundTrip.UnescapesToItselfIff` | pdfa-engine/cli/tool_report.cpp:652-682 | unescaping leaves a text alone if and only if no ampersand in it starts an entity |
| `XmlRoundTrip.TagNodeRead` | pdfa-engine/cli/tool_report.cpp:716-734 | a printed start tag reads back as its name and attributes |
| `XmlRoundTrip.ItemsRead` | pdfa-engine/cli/tool_report.cpp:684-741 | printed text and children followed by the closing tag read back as their joined text and nodes, anywhere in a text |
| `XmlRoundTrip.ElementRead` | pdfa-engine/cli/tool_report.cpp:684-741 | every printed element tree within the depth limit reads back as that tree |
| `XmlMarkup.SectionKept` | pdfa-engine/cli/tool_report.cpp:694-697 | the text of a CDATA section is kept as it stands, whatever entities and tags it holds |
| `XmlMarkup.CommentSkipped` | pdfa-engine/cli/tool_report.cpp:691-693 | a comment contributes nothing |
| `XmlMarkup.DeclarationSkipped` | pdfa-engine/cli/tool_report.cpp:698-700 | any other declaration and every instruction is skipped up to the next > |
| `XmlMarkup.DecimalReference` | pdfa-engine/cli/tool_report.cpp:671-671 | a decimal character reference stands for its number |
| `XmlMarkup.HexReference` | pdfa-engine/cli/tool_report.cpp:671-671 | and so does a hexadecimal one |
| `XmlMarkup.SignRead` | pdfa-engine/cli/tool_report.cpp:671-671 | signs and numbers that do not fit, as strtoul takes them |
| `XmlMarkup.BlanksSkipped` | pdfa-engine/cli/tool_report.cpp:671-671 | white space before a number is skipped |
| `XmlMarkup.PrefixRead` | pdfa-engine/cli/tool_report.cpp:671-671 | a hexadecimal number may have a prefix of its own |
| `XmlMarkup.RestIgnored` | pdfa-engine/cli/tool_report.cpp:671-671 | what follows the digits is ignored |
| `XmlMarkup.NamedEntities` | pdfa-engine/cli/tool_report.cpp:666-670 | the codes of the five names, and none for any other |
| `XmlMarkup.ReferenceRead` | pdfa-engine/cli/tool_report.cpp:654-681 | a reference is replaced by the bytes of its code and reading goes on behind it |
| `XmlMarkup.Utf8Decodes` | pdfa-engine/cli/tool_report.cpp:676-678 | the bytes are well-formed UTF-8 that decodes to the code, or to its lower 16 bits beyond the basic plane |
| `XmlMarkup.Utf8ExactIff` | pdfa-engine/cli/tool_report.cpp:676-678 | they decode to the code if and only if it is below 65536 |
| `XmlMarkup.PrefixDropped` | pdfa-engine/cli/tool_report.cpp:719-721 | a name loses its prefix up to the first colon |
| `XmlMarkup.NestingRefused` | pdfa-engine/cli/tool_report.cpp:685-685 | more than 64 open elements are refused, whatever follows |
| `XmlMarkup.NestingAllowed` | pdfa-engine/cli/tool_report.cpp:685-685 | up to 64 are read |
| `XmlMarkup.AnyAttributeRead` | pdfa-engine/cli/tool_report.cpp:722-733 | an attribute with blanks around its name and =, and with either kind of quotes, reads as its name and unescaped value |
| `XmlMarkup.QuotedMarkPassed` | pdfa-engine/cli/tool_report.cpp:706-712 | a > between quotes of either kind does not end the tag |
| `XmlRender.RenderXml` | pdfa-engine/cli/tool_report.cpp:972-994 | the text of a report is the declaration and the printed element tree of its sections |
| `XmlRender.RenderSection` | pdfa-engine/cli/tool_report.cpp:976-991 | the concatenations of a section write the printed tree of that section |
| `XmlRender.RenderTable` | pdfa-engine/cli/tool_report.cpp:980-990 | the same for its table; a section without columns has none |
| `XmlRender.RenderItems` | pdfa-engine/cli/tool_report.cpp:979-979 | one item a line, key, label and value escaped |
| `XmlRender.RenderColumns` | pdfa-engine/cli/tool_report.cpp:982-982 | the columns in a row, keys raw and labels escaped |
| `XmlRender.RenderRows` | pdfa-engine/cli/tool_report.cpp:984-988 | one row a line |
| `XmlRender.RenderCells` | pdfa-engine/cli/tool_report.cpp:986-986 | as many cells as the row has values and the table has columns |
| `XmlReport.RenderedParses` | pdfa-engine/cli/tool_report.cpp:972-994 | the parser accepts every rendered report and returns its element tree |
| `XmlReport.ReportTagRead` | pdfa-engine/cli/tool_report.cpp:972-975 | the tag of a report reads back with its namespace, language, engine and time |
| `XmlReport.DeclarationFirst` | pdfa-engine/cli/tool_report.cpp:972-975 | a report is the XML declaration and one element |
| `XmlReport.LabelIs` | pdfa-engine/cli/tool_report.cpp:886-890 | a key with a colon is labelled by both of its parts |
| `XmlReport.SectionBack` | pdfa-engine/cli/tool_report.cpp:975-992 | the node of a section yields its title, status, items and cells as printed, and its id and column keys unescaped |
| `XmlReport.ReportRead` | pdfa-engine/cli/tool_report.cpp:684-741 | parsing what was rendered returns every section with all attributes and texts, in order, for arbitrary titles, labels and values |
| `XmlReport.ReportRoundTripIff` | pdfa-engine/cli/tool_report.cpp:684-741 | all sections come back as they were if and only if no section id or column key holds an entity |
| `XmlOwnReport.OwnReportRoundTrip` | pdfa-engine/cli/tool_report.cpp:602-643 | for the ids, column keys, languages and times that the program uses every report comes back as it was, whatever its titles, labels and values |
| `TextWrap.Prefix` | pdfa-engine/cli/tool_report.cpp:1096-1097 | the piece cut off is the longest fitting prefix or one character, and shorter than the word |
| `TextWrap.CutWord` | pdfa-engine/cli/tool_report.cpp:1095-1101 | cutting ends, leaves a rest that fits or is one character, loses nothing, touches no word that fits and cuts pieces as long as possible |
| `TextWrap.PlaceWord` | pdfa-engine/cli/tool_report.cpp:1095-1104 | a word is placed without loss and extends the layout |
| `TextWrap.Wrap` | pdfa-engine/cli/tool_report.cpp:1084-1108 | at least one line; every line fits or has at most one character; the non-space characters are those of the text in order; the lines hold the words in order, a line of words has no room for the next word, only what does not fit is cut and every piece is as long as possible |
| `TextWrap.WidthAdds` | pdfa-engine/cli/tool_report.cpp:1084-1088 | the width of a text is the sum of its parts' widths |
| `TextWrap.FitsIff` | pdfa-engine/cli/tool_report.cpp:1095-1103 | a line may be exactly as wide as the limit |
| `TextWrap.SpaceIff` | pdfa-engine/cli/tool_report.cpp:1092-1094 | words are separated by blanks and the control characters 9 to 13 |
| `TextWrapMinimal.GreedyAhead` | pdfa-engine/cli/tool_report.cpp:1089-1108 | after as many lines the greedy filling has placed at least as many words as any other |
| `TextWrapMinimal.LaidIsGreedy` | pdfa-engine/cli/tool_report.cpp:1089-1108 | if every word fits, no word is cut and the lines are a greedy filling |
| `TextWrapMinimal.WrapIsMinimal` | pdfa-engine/cli/tool_report.cpp:1089-1108 | if the words can be broken into acceptable lines at all, no way to do so has fewer lines |
| `PageList.Print` | pdfa-engine/cli/tool_report.cpp:274-283 | the text is that of increasing, disjoint, maximal ranges whose expansion is exactly the set, and of any such ranges |
| `PageList.RangesUnique` | pdfa-engine/cli/tool_report.cpp:274-283 | there is only one such list for a set |
| `PageList.ReadsBackIff` | pdfa-engine/cli/tool_report.cpp:274-283 | the printed list reads back as its ranges if and only if it does not start with page 0 |
| `PageList.PageZeroHidesPages` | pdfa-engine/cli/tool_report.cpp:274-283 | two different sets that print the same text |
| `PngChunk.ByteRounds` | pdfa-engine/cli/tool_report.cpp:1411-1424 | eight turns of the register are a look-up of the low byte and a shift |
| `PngChunk.TableStep` | pdfa-engine/cli/tool_report.cpp:1421-1421 | one table step takes in exactly the eight bits of a byte |
| `PngChunk.MakeTable` | pdfa-engine/cli/tool_report.cpp:1410-1416 | the table holds eight turns of every byte value |
| `PngChunk.TableCrc` | pdfa-engine/cli/tool_report.cpp:1420-1423 | the table-driven checksum equals the bit-serial one for every byte string |
| `PngChunk.PutPng` | pdfa-engine/cli/tool_report.cpp:1409-1424 | a chunk is appended: size, type, data, checksum |
| `PngChunk.ChunkReadsBack` | pdfa-engine/cli/tool_report.cpp:1409-1424 | a reader takes a written chunk off any stream and finds its checksum right |
| `PngChunk.OneByteDetected` | pdfa-engine/cli/tool_report.cpp:1409-1424 | changing any one byte changes the checksum |
| `PngChunk.EndChunk` | pdfa-engine/cli/tool_report.cpp:1409-1424 | the checksum of IEND is AE426082 |
| `PathNormalize.Normalize` | server/src/api.rs:1239-1259 | the segment stack computes the specified path |
| `PathNormalize.NormalizedHasNoDots` | server/src/api.rs:1239-1259 | every result is rooted and has no segment that spells a dot or two dots, percent-encoded or not |
| `PathNormalize.NormalizedIdempotent` | server/src/api.rs:1239-1259 | normalising twice is normalising once, on every path |
| `PathNormalize.Agree` | server/src/api.rs:1239-1259 | at every point of the two algorithms: rewriting the rest of the text from the output so far gives the stack's result |
| `PathNormalize.NormalizedIsRfc` | server/src/api.rs:1239-1259 | on every absolute path the result is that of section 5.2.4 of RFC 3986 applied after decoding encoded dots |
| `PathNormalize.NormalizedIsRfcPlain` | server/src/api.rs:1239-1259 | without encoded dots it is that of the RFC on the path itself |
| `PathNormalize.DotsSpelled` | server/src/api.rs:1239-1259 | the spellings of one and two dots, percent-encoded in either case |
| `JobLockstep.PathsAreNoOptions` | server/src/exec.rs:41-49 | in an accepted job every file or profile resolves to a path below its directory, and no such path is an option of the engine |
| `Jobs.ValidateJob` | server/src/api.rs:517-619 | the iterator-driven validator computes the specified verdict and first error |
| `JobGrammar.AcceptedIff` | server/src/api.rs:517-619 | a conversion or check is accepted if and only if it is the level, options of the list each at most once and with admissible values, the input and, for a conversion, the output |
| `JobGrammar.VerifyAcceptedIff` | server/src/api.rs:533-550 | a password job is accepted if and only if it is one of two lists |
| `JobGrammar.RefusalHolds` | server/src/api.rs:517-619 | every refusal names a fault that the job has |
| `JobGrammar.Resolved` | server/src/exec.rs:37-49 | files resolve into the job directory, profiles into the library |
| `JobValues.ResolutionIff` | server/src/api.rs:485-500 | a resolution is digits, or digits on both sides of one point, of at most ten characters |
| `JobValues.RecordsIff` | server/src/api.rs:501-503 | record ranges are 1 to 512 digits, commas, hyphens and blanks |
| `JobValues.InvoiceProfileIff` | server/src/api.rs:504-508 | an invoice profile is 1 to 32 letters, digits, blanks, underscores and hyphens |
| `JobValues.PlainTextIff` | server/src/api.rs:454-460 | any other text has 1 to 512 UTF-16 units and no control character |
| `JobValues.PasswordIff` | server/src/api.rs:513-515 | a password has 1 to 65536 bytes and no NUL |
| `JobValues.ProfileIff` | server/src/api.rs:466-483 | a library profile is two short names on either side of one slash |
| `JobValues.BytesCounted` | server/src/api.rs:513-515 | the size in bytes is that of UTF-8 |
| `JobValues.UnitsCounted` | server/src/api.rs:454-456 | the size in units is that of UTF-16 |
| `Jobs.BuildArgs` | server/src/api.rs:629-730 | the argument list, the stored files or the first error, option by option |
| `JobOptions.BuiltAsAsked` | server/src/api.rs:629-730 | the arguments of every request that is built, by the names of all 23 parameters: each switch, text, password, profile and file behind its own flag exactly when the request asks for it, in this order and with nothing else |
| `JobOptions.BuildsIff` | server/src/api.rs:629-730 | a request is built if and only if its level is listed, its text values are admissible, the profile it names is in the library and its uploads can be stored |
| `JobOptions.RefusedBecause` | server/src/api.rs:629-730 | the error names what is wrong: the level first, then a text value, then the profile, then a file |
| `JobOptions.GetHas` | server/src/api.rs:427-429 | a parameter is the first of that name in the query, else the text field |
| `Jobs.FlagsDistinct` | server/src/api.rs:21-54 | no option is listed twice |
| `JobBuilder.BuilderComplete` | server/src/api.rs:629-730 | for every request that builds, the finished job is accepted if and only if its password fits, and otherwise refused for that reason only |
| `JobBuilder.VerifyJobAccepted` | server/src/api.rs:1148-1191 | the same for verification jobs |
| `JobBuilder.NulPasswordRefused` | server/src/api.rs:513-515 | a request with a NUL in its password that is built and then refused |
| `Cli.ReadArguments` | pdfa-engine/cli/main.cpp:768-1028 | the index-driven argument loop collects options, values and positionals or stops with a code as specified |
| `CliCourse.CommandLineRead` | pdfa-engine/cli/main.cpp:768-1028 | every command line written from options, values and file names in any order is read as it was meant, up to the first refused value or request for information; a last option without its value counts as a file name |
| `CliCourse.EveryLine` | pdfa-engine/cli/main.cpp:768-1028 | every command line is written that way |
| `CliCourse.RefusalIs` | pdfa-engine/cli/main.cpp:776-781 | a level is read against the list of levels, and only the checked options can stop the loop |
| `CliCourse.CourseIs` | pdfa-engine/cli/main.cpp:1013-1122 | the course for every command line: merging, usage, verifying, invoices, batches, checking and converting |
| `CliCourse.LastGivenIs` | pdfa-engine/cli/main.cpp:816-817 | the last value of an option counts |
| `CliCourse.ProgramCourse` | pdfa-engine/cli/main.cpp:732-740 | tools and comparisons come before all options |
| `JobLockstep.OptionsLockstep` | pdfa-engine/cli/main.cpp:768-1028 | from any point, what the validator takes for options and values the command line takes for the same options and values |
| `JobLockstep.JobIsReadAsMeant` | server/src/api.rs:517-619 | every accepted job is read flag by flag and value by value as meant; unless a check on a value stops it, the positionals are exactly the input, or input and output |
| `JobLockstep.JobActs` | pdfa-engine/cli/main.cpp:1013-1122 | and then the program takes the course that was asked for: verify, check or convert |
| `Admission.StepKeeps` | server/src/api.rs:173-189 | every atomic step of any request keeps the invariant |
| `Admission.AlwaysInvariant` | server/src/api.rs:173-189 | in every state of every run: permits free plus given out equal the concurrency, the counter equals the requests between their increment and decrement, admitted waiters are within the limit, and no permit is free while a request is queued |
| `Admission.LoadIsExact` | server/src/api.rs:191-199 | the reported load never underflows and is the number of held permits and of counted requests |
| `Admission.QuietIsInitial` | server/src/api.rs:173-189 | when all requests have gone, permits and counter have their initial values |
| `Admission.TurnedAwayIff` | server/src/api.rs:177-180 | a request is turned away if and only if admitted waiters and requests being turned away fill the limit |
| `Admission.TurnedAwayThoughNobodyWaits` | server/src/api.rs:177-180 | a run in which a request is turned away although no request waits |
| `Admission.QueuedMeansBusy` | server/src/api.rs:188-188 | while a request is queued every permit is given out |
| `Admission.SomeStepEnabled` | server/src/api.rs:173-189 | with at least one permit, as long as some request has not gone, some request can go on without a cancellation |
| `Admission.RunsAreShort` | server/src/api.rs:173-189 | a run has at most seven steps per request, so every request ends |
| `Admission.NoOvertaking` | server/src/api.rs:173-189 | in every run, while a request waits, one behind it stays behind it or gives up |
| `Admission.StepsOf` | server/src/api.rs:173-189 | which step a request can take at each of its stages, and no other |
| `Admission.StepsThere` | server/src/api.rs:173-189 | and that it can take it |
| `BatchPool.AlwaysInvariant` | pdfa-engine/cli/main.cpp:1225-1245 | in every state of every interleaving no two workers are on the same input and each code is either right or not written yet |
| `BatchPool.CodesArePointwise` | pdfa-engine/cli/main.cpp:1225-1248 | when all workers have returned the codes are the pointwise outcome and the counter is inputs plus workers |
| `BatchPool.ClaimedOnce` | pdfa-engine/cli/main.cpp:1228-1230 | each input is claimed at exactly one step, by exactly one worker |
| `BatchPool.PoolEnds` | pdfa-engine/cli/main.cpp:1227-1248 | every run is bounded by two steps per input and one per worker, has that length when all have returned, and cannot get stuck before |
| `BatchPool.RunInOrder` | pdfa-engine/cli/main.cpp:1254-1262 | the sequential path records the same codes |
| `BatchPool.Count` | pdfa-engine/cli/main.cpp:1264-1267 | how many inputs failed and how many are not compliant |
| `BatchPool.ExitStatus` | pdfa-engine/cli/main.cpp:1304-1310 | 2 if and only if some code is 2 or 3, otherwise 1 if and only if some code is 1, otherwise 0 |
| `BatchPool.CodeIs` | pdfa-engine/cli/main.cpp:1231-1241 | no destination or a status out of range counts as 2, any other status as itself |
| `WinQuote.Quote` | pdfa-engine/cli/tools.cpp:32-47 | the loop with the backslash counter writes the quoted form |
| `WinQuote.Join` | pdfa-engine/cli/tools.cpp:58-59 | the command line is the quoted arguments with spaces between |
| `WinQuote.QuotedRead` | pdfa-engine/cli/tools.cpp:32-47 | any quoted argument, followed by a blank or the end, is read back whole |
| `WinQuote.CommandLineRoundTrip` | pdfa-engine/cli/tools.cpp:32-59 | every list of arguments behind the program name survives quoting, joining and splitting by the rules of the Microsoft C runtime |
| `WinQuote.UnquotedIff` | pdfa-engine/cli/tools.cpp:32-34 | an argument is left alone if and only if it is not empty and has no blank, tab, line feed, vertical tab or quote |
| `AboveRegex.Above` | pdfa-engine/profiles/build_library.py:51-58 | the text that is built is that of the expression the theorem is about |
| `AboveRegex.OptionsMatch` | pdfa-engine/profiles/build_library.py:53-57 | the alternatives match the longer numerals and those with a larger digit after a common beginning |
| `AboveRegex.AboveExact` | pdfa-engine/profiles/build_library.py:51-58 | a string is matched in full if and only if it is the canonical numeral of a number above n |
| `JsNumber.NumberDenotes` | server/src/jsjson.rs:9-42 | the printed text is a JSON number that denotes exactly the digits times ten to the n-k with the right sign; only non-finite numbers print as something else |
| `JsNumber.LayoutIsEcma` | server/src/jsjson.rs:20-35 | the layout is that of section 6.1.6.1.20 of ECMA-262, defined by arithmetic on the significand |
| `JsNumber.ExponentFormIff` | server/src/jsjson.rs:20-35 | the exponent form is used exactly below 10^-6 and from 10^21 on |
| `JsNumber.SpecialNumbers` | server/src/jsjson.rs:9-19 | zero has no sign and what is not finite is null |

## Left out

- qpdf's tokenizer, its warnings and the exceptions the walkers swallow: content arrives as tokens.
- Floating-point rounding in matrices and widths, and numbers that are not finite: exact arithmetic stands for them.
- Paint-rule fidelity of the dieline output, which always writes S or f, and the JSON form of the output.
- Colour inheritance into forms: a nested walker starts from default colours, as in the code, and nothing more is claimed.
- `InventoryWalk.InvWalker.HandleObject`: does not note colour spaces; only images are modelled, because colour-space notes do not touch the matrix, the stack or the recursion.
- `InventoryWalk.InvWalker.DoXObject`: records an image and its matrix, not its size, filter, colour space or resolution, which are read off the image dictionary alone.
- `InventoryWalk.InvWalker.RunStream`: leaves out the notes on fonts, colour spaces and shadings in the resources, which the walk does not read again.
- `DocumentParts.ReadNode`: gives a tree, not JSON text; metadata is opaque, and conversion of metadata between JSON and PDF, record level and node names are not modelled.
- `DocumentParts.Document.SetDparts`: takes the chosen root; the choice between the `root` key and the whole file, and out-of-range conversions of numbers, are not modelled.
- SHA-256 and the writer itself: the digest is the byte stream that is fed, and the writer is any renaming. Two documents that differ in several places at once are compared only under renaming.
- `XmlReport.ReportRoundTripIff`: raw fields must hold no double quote, because a quote there can make the tag run on to any later quote of the text; the program's own identifiers hold none (`XmlOwnReport.OwnReportRoundTrip`).
- HTML, JSON, text and PDF renderings of reports, and the conversion to WinAnsi before wrapping.
- `TextWrap.Wrap`: holds for every table of widths, so Helvetica's table is not spelled out.
- `DigestSensitive.AttributeNoticed`: a rotation whose old text is the beginning of the new one is not covered, because the bytes of the resources follow it without a separator.
- `DielineComplete.StrokeFoundIff`: the pattern is any predicate on names; regular expressions are not modelled.
- `Admission.AlwaysInvariant`: the semaphore is taken to serve waiters in order and to pass a returned permit to the first of them.
- `BatchPool.CodesArePointwise`: a conversion's status depends on the input only; two inputs that write the same output file, and the printed JSON, are not modelled.
- The rule for the program name itself on a Windows command line, and arguments that hold a NUL character.
- `JsNumber.NumberDenotes`: starts from the shortest digits that the exponential format prints for a double.
- Other members of `jsjson.rs`, which only add separators around numbers and strings.
- The conversion engine, levels and their tables beyond the names the command line knows, the coordinator, workers, wire format, HTTP, TLS, files and processes.
- What the options of the command line do after they have been read.
