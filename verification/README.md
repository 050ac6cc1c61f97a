# Ferroma, modelled in Dafny

This project models five parts of the Ferroma mail server and its web client and proves properties of the models. Run
`dafny verify dfyconfig.toml` to check all of it.

- **The QR encoder** (`shared/qr.js`): the tables of GF(2^8), the Reed-Solomon generator and in-place division, the
  codeword stream, and the drawing with its zigzag and mask. `Galois` and `ReedSolomon` prove the algebra up to the
  minimum distance; `QrBits`, `QrBlocks` and `QrEncode` are the reader's side and the round trip of the stream;
  `QrEncoder` holds the encoding loops; `QrWalk`, `QrLayout` and `QrMatrix` draw; `QrSymbol.Draw` is the whole, and
  `QrDamage` says how many flipped modules it bears. `QrScanner` is a scanner written from ISO/IEC 18004 that shares
  no definition with the rest, and `QrScan` proves that it reads what is drawn.
- **The folder pane** (`web/folders.js`): the forest built from arbitrary, possibly cyclic parents, the stored drag
  order, and the move guard. `FolderForest` states what a correct drawing is and that the code's is the only one;
  `FolderPlacement`, `FolderReorder`, `FolderTree` and `FolderDrag` derive placement, redraw stability and what a drag
  does; `FolderShown` says who stands where in terms of the folders alone; `FolderPane` holds the code with its maps,
  shared set and recursive closure; `FolderMoves` the guard; and `FolderDrop` a whole drop, the move and the order
  together.
- **The listener supervisor** (`server/src/listeners.rs`): the command loop as a class, refined to a register; what it
  publishes against what is bound.
- **The ACME client** (`server/src/acme.rs`): `AcmeClient` runs against a world whose every answer is arbitrary;
  `AcmeTrace` says what its record of events may look like, `AcmeConduct` says it again in terms of requests and
  answers alone, and `AcmeScript` says which answers let it come by a certificate; `AcmeDer` reads `notAfter`;
  `AcmePem` reads and writes PEM.
- **Backup** (`server/src/backup.rs`): `BackupArchive` writes archives and reads their manifest; `BackupLayout` says
  where sections live and when installing them loses nothing, `BackupPlaces` which place belongs to which archive
  path, in terms of the configuration; `BackupExport` plans exports; on a `BackupHost` any step of which may fail,
  `BackupExtract` unpacks to wherever names lead, `BackupInstall` clears and copies, and `BackupImport` is the whole
  import; `BackupRuns` puts an export and an import together.

Conventions: a loop or an object that the source updates in place is a method or a class here, proved against a function
or a predicate; the properties are lemmas about those. Failing steps, transport, deadlines, the results of starts and
binds, and the order of a directory walk are inputs, and every statement holds for all of them.

Seven properties turn out to hold on a condition only; the condition and an input that misses it are proved:

- `not_after_from_der` is documented to answer `None` for anything it does not recognise
  (`server/src/acme.rs:1268-1273`), but cutting a UTCTime after its second byte stops the program when that is not a
  character boundary. `AcmeDer.WhenAborts` says for which bytes, `AcmeDer.WhenCertificateAborts` for which
  certificates, and `AcmeDer.EuroCertificateAborts` is a short input.
- Every byte is said to be proven good before the target is touched (`server/src/backup.rs:1406`), but an entry is
  written where its name leads, and names may be absolute or climb. `BackupImport.Import` shows that the order holds
  whenever no reached entry strays, and with no failing step exactly when unpacking does not go astray;
  `BackupRuns.StrayingArchive` is refused, and has written by then.
- Members are checked by their names, and two names may lead to one file. `BackupExtract.AcceptedIsListed` says
  exactly when every listed place holds its listed bytes; `BackupExtract.SharedPlace` is an accepted archive where one
  does not.
- A directory that cannot be listed counts as empty (`server/src/backup.rs:1631-1636`), so a failing listing lets an
  import without `--replace` remove existing mail (`BackupRuns.MisreadingLosesMail`). `BackupImport.Import` shows that
  no file is lost when the roots in use can be listed, and otherwise exactly those that no section brings back.
- Installing sections one after the other keeps an archive whole for every layout only if no destination is at or
  inside another (`BackupLayout.AnyLayout`); under the layout that exported it, nesting does no harm
  (`BackupLayout.SameLayout`).
- A drop at the edge of a row need not end beside it. `FolderDrop.EdgeDropIsBeside` says exactly when it does, on the
  order before the drop, and `FolderDrag.DropIsBeside` when it does between folders with one parent. In
  `FolderDrop.SameParentIsNotEnough` the target cuts a cycle, in `FolderDrop.NestedByName` it is nested by its name
  alone; in `FolderDrag.MeetWithDifferentParents` the two meet on the top level, which is one list of the folders
  without a parent and then the cycle cutters.
- A listener published as enabled need not be bound: IMAP is started by a check of its configuration, and its task
  binds later (`crates/ferroma-imap/src/server.rs:221-229`). `Listeners.Supervisor.AtBoundary` says exactly when it
  is, and `Listeners.EnabledUnbound` is a command after which it is not.

## Model

| member | source | states |
|---|---|---|
| Galois.TimesPowers | shared/qr.js:100-103 | multiplying two powers of alpha as polynomials modulo 0x11d adds their exponents, which is why a table of logarithms can multiply |
| Galois.AlphaCycle | shared/qr.js:89-97 | alpha to the 255 is 1 |
| Galois.AlphaOrder | shared/qr.js:89-97 | no smaller positive power of alpha is 1: 0x11d is primitive |
| Galois.AlphaOnto | shared/qr.js:91-96 | every nonzero byte is a power of alpha below 255, so the logarithm table is filled completely |
| Galois.DoubleLinear | shared/qr.js:94-95 | the shift-and-reduce step is linear over XOR |
| Galois.TimesDistributes | shared/qr.js:100-103 | field multiplication distributes over XOR |
| Galois.TimesCommutes | shared/qr.js:100-103 | field multiplication commutes |
| Galois.TimesAssociates | shared/qr.js:100-103 | field multiplication is associative |
| Galois.NoZeroDivisors | shared/qr.js:100-103 | a product is 0 only when a factor is |
| Galois.Tables.FillPowers | shared/qr.js:90-96 | the doubling loop, with its carry out of bit 8, leaves alpha^i in the first 255 antilogarithms and i in the logarithm of alpha^i |
| Galois.Tables.FillWrap | shared/qr.js:97 | the second half repeats the first with period 255 |
| Galois.Tables.GfMul | shared/qr.js:100-103 | the table product is the product of the two polynomials modulo 0x11d, zeros included |
| ReedSolomon.RootProductVanishes | shared/qr.js:65-71 | the product of the factors x - alpha^i vanishes at alpha^0 to alpha^(n-1) |
| ReedSolomon.Generator | shared/qr.js:72-84 | the in-place loops leave exactly that product, highest power first and without its leading 1 |
| ReedSolomon.DivideStepAtRoot | shared/qr.js:113-118 | what one step of the division does to the value of the remainder at a root of the generator |
| ReedSolomon.ErrorCorrection | shared/qr.js:110-120 | the in-place division over the whole data leaves the check bytes of the data word |
| ReedSolomon.CodewordVanishes | shared/qr.js:110-120 | for every data word and count, data followed by its check bytes is a polynomial that vanishes at alpha^0 to alpha^(count-1) |
| ReedSolomon.TooManyRoots | shared/qr.js:72-120 | a polynomial of length at most 255 with at most w terms that vanishes at w consecutive powers of alpha is zero |
| ReedSolomon.MinimumDistance | shared/qr.js:72-120 | for any count, two different data words of equal length with length + count at most 255 give codewords that differ in at least count + 1 positions |
| ReedSolomon.DamageIsCorrectable | shared/qr.js:72-120 | a received word within half of count of two codewords pins down one data word |
| QrBits.NumberOfBits | shared/qr.js:139-141 | reading the pushed bits of a number gives the number back when it fits the width |
| QrBits.PackAllBits | shared/qr.js:147-152 | packing the bits of bytes gives the bytes back |
| QrBits.AllBitsPack | shared/qr.js:147-152 | and the bits of packed bytes are the bits that were packed |
| QrBits.AllBitsAt | shared/qr.js:284 | bit 8q + r of the stream is bit 7 - r of codeword q |
| QrBlocks.JoinSplit | shared/qr.js:158-166 | joining the blocks cut off the data gives the data back |
| QrBlocks.ColumnsAt | shared/qr.js:169-171 | interleaving puts element i of block b exactly at its position: after all shorter columns and the earlier blocks that have one |
| QrBlocks.DeinterleaveColumns | shared/qr.js:167-174 | picking every element out of its place undoes the interleaving of blocks of different lengths |
| QrEncode.VersionTable | shared/qr.js:26-41 | for each of the ten versions the groups, the list of blocks and the data codewords agree |
| QrEncode.GroupSizesTotal | shared/qr.js:131 | the blocks cut for the groups are as long together as the groups say |
| QrEncode.ReadDataWords | shared/qr.js:138-155 | mode, count, bytes, terminator, fill bits and pad bytes are read back as exactly the text bytes |
| QrEncode.StreamLength | shared/qr.js:157-174 | the stream holds every data and check codeword of every block, and no more |
| QrEncode.ReadCodewordsBack | shared/qr.js:127-175 | undoing interleaving and blocks and parsing the header returns the text bytes, for every version and text that fits |
| QrEncode.BlocksCarryTheirChecks | shared/qr.js:158-174 | every block picked out of the stream is a Reed-Solomon codeword of its own data |
| QrEncode.DamageTolerance | shared/qr.js:9-12 | damage of at most half as many codewords in each block as it has check bytes cannot turn the stream of one text into that of another |
| QrEncoder.Push | shared/qr.js:139-141 | appends the low bits of the value, most significant first |
| QrEncoder.PushPayload | shared/qr.js:142-144 | byte mode, a count of 8 or 16 bits, and the bytes |
| QrEncoder.Terminate | shared/qr.js:145-146 | up to four zeros within the capacity, then zeros up to a whole byte |
| QrEncoder.PackBits | shared/qr.js:147-152 | the bit loop packs as the inverse of taking bits |
| QrEncoder.Pad | shared/qr.js:153-155 | fills up to the capacity with 0xEC and 0x11 alternating from 0xEC |
| QrEncoder.BuildData | shared/qr.js:138-155 | the data words of the text for this version |
| QrEncoder.CutGroup | shared/qr.js:160-165 | one group of blocks cut off the data at the offset, each with its own check bytes |
| QrEncoder.BuildBlocks | shared/qr.js:158-166 | all blocks of the version, cut in order |
| QrEncoder.Interleave | shared/qr.js:167-174 | data columns and then check columns, shorter blocks skipped |
| QrEncoder.Encode | shared/qr.js:127-178 | the smallest version that holds the text with its whole codeword stream, or none when none of the ten does |
| QrEncoder.RefusedLengths | shared/qr.js:129-136 | refused are exactly the texts of more than 213 bytes |
| QrWalk.WalkVisitsCell | shared/qr.js:272-291 | for every odd size from 7 on, each module outside column 6 is reached by the walk |
| QrWalk.WalkIndexOfCell | shared/qr.js:272-291 | and by no other step than its own, so the walk is a bijection |
| QrWalk.WalkInjective | shared/qr.js:272-291 | two steps never visit one module |
| QrWalk.ReadPlaced | shared/qr.js:281-289 | reading the free modules in walking order with the mask undone returns the stream bit for bit, then zeros, for every reservation map |
| QrWalk.FreeCount | shared/qr.js:268-282 | the walk has at least as many free modules as lie outside any cover of the reserved ones |
| QrLayout.MeasureCover | shared/qr.js:195-266 | how many modules the function patterns and format strips of each version take |
| QrLayout.RoomForEveryBit | shared/qr.js:272-285 | in every version the walk has a free module for every bit of every codeword: none is dropped |
| QrMatrix.AlignmentCentres | shared/qr.js:47-55 | the centre formula and its sort give the centres of the layout, ascending |
| QrMatrix.Canvas.Finder | shared/qr.js:199-213 | dark exactly at rings 0, 1 and 3 around its centre, reserved with its separator, clipped to the symbol, all else untouched |
| QrMatrix.Canvas.AlignmentPattern | shared/qr.js:221-227 | 25 modules reserved, ring 1 left light, all else untouched |
| QrMatrix.Canvas.Alignments | shared/qr.js:218-229 | one pattern at every pair of centres but the three finder corners, recognised by an earlier reservation |
| QrMatrix.Canvas.Timing | shared/qr.js:231-239 | both timing lines reserved and dark at even coordinates |
| QrMatrix.Canvas.VersionInfo | shared/qr.js:241-253 | both version blocks reserved and showing the 18 bits of the version word from version 7 on |
| QrMatrix.VersionWords | shared/qr.js:244-246 | the shift loop computes the version words of Annex D of ISO/IEC 18004 for versions 7 to 10 |
| QrMatrix.Canvas.ReserveFormat | shared/qr.js:255-266 | the dark module drawn and the format strips reserved |
| QrMatrix.Canvas.FunctionPatterns | shared/qr.js:187-266 | the reservation map is complete, and every module shows exactly its pattern: finder, alignment, timing, version or dark module |
| QrMatrix.Canvas.PlaceModule | shared/qr.js:282-288 | a reserved module is skipped; a free one takes the next bit, turned over exactly where row and column add up to an even number |
| QrMatrix.Canvas.Place | shared/qr.js:268-291 | every free module holds its stream bit, turned over where row and column add up to an even number, and no reserved module changes |
| QrMatrix.Canvas.DrawFormat | shared/qr.js:293-305 | only reserved modules are written, and both strips show the format word |
| QrMatrix.FormatSpells | shared/qr.js:301-305 | the module of the second strip that is never written is right because bit 7 of the fixed word is 0 |
| QrMatrix.CornerIsLight | shared/qr.js:302-305 | and no function pattern darkens that module before the format is drawn |
| QrMatrix.PlacedSurvives | shared/qr.js:293-305 | format writes do not reach the payload |
| QrMatrix.Matrix | shared/qr.js:186-308 | every module of the drawing is determined: the stream bits in the free ones, turned over where row and column add up to an even number, both format copies, and the patterns in all other reserved ones |
| QrSymbol.ReadStreamBack | shared/qr.js:272-291 | a reader of the drawn modules recovers every codeword |
| QrSymbol.ReadSymbolBack | shared/qr.js:180-308 | from any drawing of a text's codewords a reader gets the text bytes |
| QrSymbol.Draw | shared/qr.js:318-325 | nothing is drawn for the empty text and for more than 213 bytes; otherwise the symbol has the smallest version that holds the text, and a scanner written from ISO/IEC 18004 alone decodes level and mask from both format copies, undoes the mask they name, and gets exactly the bytes, with every check codeword right, the padding in place and every function pattern drawn |
| QrScan.SymbolScans | shared/qr.js:186-308 | from any drawing that holds the codewords of a text that scanner reads the text, and finds nothing damaged and no pattern missing |
| QrScan.FormatScans | shared/qr.js:293-305 | both format copies, freed of the mask 101010000010010, have no remainder under the generator and name level M and mask 000 |
| QrScan.ZigzagReads | shared/qr.js:268-291 | the scanner, which finds the modules without data and undoes the mask by its own rules, reads along its own zigzag what is read along the walk of the drawing |
| QrScan.FunctionalIsReserved | shared/qr.js:195-266 | the modules the standard keeps free of data are those that are reserved |
| QrScan.DataWordsScan | shared/qr.js:157-174 | with the block table of the standard the scanner puts the data codewords together again |
| QrScan.BlockScan | shared/qr.js:110-166 | every block it puts together has all syndromes zero, with the field polynomial 100011101 |
| QrScan.TextScan | shared/qr.js:138-155 | mode 0100, a count and the bytes, read by half codewords |
| QrScan.PaddingScan | shared/qr.js:145-155 | after the text four zeros, then 11101100 and 00010001 in turn |
| QrScan.PatternsScan | shared/qr.js:187-266 | finders, separators, alignment patterns, timing lines, version blocks and the dark module as the standard pictures them |
| QrScan.HoldsTexts | shared/qr.js:129-136 | how many bytes each of the ten versions holds |
| QrDamage.BlockDistance | shared/qr.js:168-174 | a received block differs from the drawn one in no more codewords than the streams do: the interleaving sends each codeword to one place |
| QrDamage.SpoiledCodewords | shared/qr.js:272-291 | each flipped payload module of the drawn matrix spoils at most one of the codewords that are read |
| QrDamage.SymbolTolerance | shared/qr.js:127-308 | a matrix with no more flipped payload modules than half the check bytes of a block can come from one text only |
| FolderOrder.FollowsUnique | web/folders.js:664-672 | a set of folders can follow a total order in one way only |
| FolderForest.ForestIsDrawing | web/folders.js:673-699 | existence: the two passes over any parent table give a correct drawing |
| FolderForest.DrawingIsForest | web/folders.js:673-699 | uniqueness: any correct drawing is the one the two passes give |
| FolderPlacement.TopsReach | web/folders.js:691 | drawn below the first pass are exactly the folders whose parent chain ends |
| FolderPlacement.ExtrasCut | web/folders.js:692-698 | a top-level folder with a parent is exactly one whose chain never ends and that comes before all others on it |
| FolderPlacement.Placement | web/folders.js:680-699 | a folder whose chain ends, and every other folder that cuts no cycle, is drawn directly inside its parent |
| FolderPlacement.ChildrenList | web/folders.js:673-689 | the children drawn inside a folder are exactly its children that cut no cycle, in sibling order |
| FolderReorder.RedrawAgreeing | web/folders.js:680-699 | an order that keeps every pair on which the old order and the drawing agree redraws the identical forest |
| FolderReorder.ListMoved | web/folders.js:557-569 | a sibling list under the moved order is the old list with the folder moved, or the old list |
| FolderReorder.CutsUnmoved | web/folders.js:692-698 | moving a folder next to a drawn sibling leaves every folder's role in its cycle as it was |
| FolderReorder.DrawingMoved | web/folders.js:680-699 | after such a move each list of the drawing is the old list moved or the old list itself, roots included |
| FolderTree.ParentsHold | web/folders.js:646-659 | the filled table gives the parent by id when the server named another known folder, otherwise by the path in the name, never the folder itself |
| FolderTree.CompareTotal | web/folders.js:664-671 | compare is a strict total order on folders with distinct ids, for any stored order |
| FolderTree.OrderFacts | web/folders.js:674 | the sorted listing holds every folder and stands in that order |
| FolderTree.EveryFolderOnce | web/folders.js:645-700 | whatever the parents say - cycles, self-parents, missing ones - every folder is drawn exactly once |
| FolderTree.PermutationInvariance | web/folders.js:645-700 | permuting the folder list changes nothing |
| FolderTree.DrawnOrderFacts | web/folders.js:619-630 | the flattened order is a listing of the custom folders as drawn |
| FolderTree.RedrawStable | web/folders.js:513-519 | storing the flattened drawn order and rebuilding gives the identical forest, cycles included |
| FolderTree.MoveNextOrder | web/folders.js:565-567 | after both splices the dragged folder stands directly beside the target and every other pair is as before |
| FolderTree.DragMoves | web/folders.js:556-569 | for a drawn custom sibling the drop stores a permutation, and the redraw is the old drawing with the folder taken out of their common list and put directly before or after the sibling; every other list is unchanged |
| FolderDrag.DropIsBeside | web/folders.js:556-569 | for any two custom folders with one parent, cycles included, the redraw puts the dropped one directly before or after its target if and only if the drop did not decide which of the two cuts a cycle: the target led its endless chain, and it was on that chain and dropped after, or the dropped one was and was put before |
| FolderDrag.OthersKeepOrder | web/folders.js:556-569 | whatever the drop does, two other folders that share a list before and after it - the top level, cycle-cutting roots included, is one list - keep their order |
| FolderDrag.BesideExactly | web/folders.js:556-569 | the same for any parent table and any two orders of which the second is the first with the folder moved |
| FolderDrag.MeetWithDifferentParents | web/folders.js:691-698 | a parent table and an order in which a folder without a parent and a cycle cutter stand side by side, so that a drop of the one after the other ends beside it without changing anything |
| FolderDrag.SameRole | web/folders.js:692-698 | after a drop both folders cut a cycle or neither does, unless the drop tore them apart |
| FolderPane.FillChildren | web/folders.js:673-678 | each child list holds exactly the folders with that parent, in sibling order |
| FolderPane.Forester.Attach | web/folders.js:681-689 | the recursive closure with its shared attached set ends, and builds what the pure pass builds from the same set |
| FolderPane.BuildForest | web/folders.js:645-700 | the map, set and closure code returns the forest of the folders under the order: first the folders without a parent, then the cycle cutters, and inside each folder its children; in each of these lists a smaller sort key stands first, then what is stored in its stored order before what is not, then the smaller id |
| FolderShown.ForestArranged | web/folders.js:645-700 | who stands above whom in each list of the forest, in terms of sort keys, the stored order and ids |
| FolderShown.FollowerStands | web/folders.js:664-672 | any list in sibling order stands like that |
| FolderShown.ParentMeans | web/folders.js:646-659 | the parent of a folder is the other listed folder the server named, and without one the other folder whose name is its name up to the last slash |
| FolderPane.FlattenCustomFolders | web/folders.js:620-630 | the folders that are not special, in drawing order |
| FolderPane.Splice | web/folders.js:563-567 | the two splices are the move |
| FolderPane.OrderStore.ReorderFolder | web/folders.js:557-569 | the stored order becomes the drawn one with the folder moved; nothing is stored unless both are custom folders |
| FolderDrop.Pane.DropFolder | web/folders.js:540-554 | a drop inside a row only moves; an edge drop moves when the parents the server sent differ, ends there when the move is refused, and otherwise stores the order under the folders the server sent after it |
| FolderDrop.MovesMeans | web/folders.js:540-549 | an edge drop asks for a move exactly when the two folders do not name the same positive parent |
| FolderDrop.StoredBeside | web/folders.js:556-569 | what the drop stores: the folders that are not special as they are drawn, the dropped one taken out and put directly before or after the other |
| FolderDrop.EdgeDropIsBeside | web/folders.js:540-569 | whatever folders the server sent, an edge drop ends directly beside its target, in one of the lists that are drawn, if and only if the order before the drop says so: both cut a cycle then, or they have one parent and neither does, or they meet on the top level where the folders without a parent end, the first of the two the last of those and the other the first cycle cutter |
| FolderDrop.SameSentParent | web/folders.js:506-511 | after a drop at a target whose parent the server sent and lists, both have one parent in the tree |
| FolderDrop.NestedByName | web/folders.js:549-553 | a target nested by its name alone has no sent parent, so the drop moves nothing and does not end beside it, under any stored order |
| FolderDrop.SameParentIsNotEnough | web/folders.js:540-569 | a folder list and a stored order in which the two have one parent, the drop tears them apart, and the redraw is the same forest |
| FolderMoves.IsSelfOrDescendant | web/folders.js:483-495 | the walk ends on any rows, cyclic ones included, and answers true exactly when the id is on the candidate's chain |
| FolderMoves.MoveKeepsAcyclic | web/folders.js:476-495 | on acyclic parents a move keeps them acyclic if and only if the guard lets it through |
| FolderMoves.MoveToTopKeepsAcyclic | web/folders.js:506-511 | a move to the top level never makes a cycle |
| FolderMoves.DropKeepsAcyclic | web/folders.js:540-554 | any drop the guard lets through, inside a row or at its edge, keeps acyclic parents acyclic |
| Listeners.AvailabilityFixed | server/src/listeners.rs:106-123 | no command changes what is available |
| Listeners.LastOkDecides | server/src/listeners.rs:145-168 | each listener shows the value of its last successful command, whatever was served between |
| Listeners.AnswerTells | server/src/listeners.rs:157-166 | an Ok answer means the listener has the asked value; an error or another listener's command changes nothing |
| Listeners.Supervisor.Start | server/src/listeners.rs:100-142 | starts what is asked for and available, or fails when one of these starts fails: for SMTP its bind, for IMAP the check of its configuration, which leaves the bind to a spawned server; published is what was started, and it is bound - IMAP if that server got its sockets |
| Listeners.Supervisor.Enqueue | server/src/listeners.rs:41-57 | a send keeps channel order and has to wait while eight commands are queued |
| Listeners.Supervisor.ServeNext | server/src/listeners.rs:145-168 | one turn serves the oldest command with one reply: a conflict exactly when the listener is not available, a failed start exactly when it is available and off, on is asked, it is not JMAP and starting fails, and otherwise Ok of the asked value, which is published; the other listeners stay as they were; enabled equals a held handle and implies available; starts minus stops is the handles held |
| Listeners.Supervisor.Apply | server/src/listeners.rs:181-211 | an available listener that changes: a failed start returns before anything is published, everything else is answered Ok, published and held exactly when on; the others and their handles are untouched |
| Listeners.EachReply | server/src/listeners.rs:145-211 | the same of every command of a log, at its place in it |
| Listeners.Supervisor.AtBoundary | server/src/listeners.rs:131-246 | at every boundary a listener is published enabled exactly when it is available and held; SMTP exactly when it is bound; and a published IMAP is bound if and only if the last command that started it, or else the start of the supervisor, got its sockets |
| Listeners.LastImapStart | server/src/listeners.rs:196-246 | over any log of commands the last one that starts IMAP, or else the start before the log, decides whether its sockets are held |
| Listeners.EnabledUnbound | crates/ferroma-imap/src/server.rs:221-229 | a command that is answered Ok and publishes IMAP as enabled while its task gets no socket |
| Listeners.Supervisor.Close | server/src/listeners.rs:170-176 | closing the channel stops everything that is held |
| Listeners.EachAcceptedOnce | server/src/listeners.rs:125 | every accepted command is served or waits, and a send has to wait exactly while eight commands do |
| Listeners.Supervisor.Live | server/src/listeners.rs:124-178 | over a whole life, for any interleaving of sends and turns and any starts and binds that fail: which sends are accepted and what each start comes to is told by the interleaving alone, every accepted command is served once, in channel order, and answered as the sequential register answers it, and all that is held is stopped and unbound |
| AcmeDer.Tlv | server/src/acme.rs:1293-1299 | on arbitrary bytes a triple read lies inside the input and ends after it began |
| AcmeDer.ScanMembers | server/src/acme.rs:1358-1370 | the member loop keeps the last time among the first three members |
| AcmeDer.NotAfterFromDer | server/src/acme.rs:1333-1382 | the cursor loop ends on arbitrary bytes and answers as the recursive walk does |
| AcmeDer.LengthInverse | server/src/acme.rs:1276-1290 | the length reader inverts definite DER lengths in up to four bytes |
| AcmeDer.LengthMeans | server/src/acme.rs:1276-1290 | on arbitrary bytes a length is one byte below 128, or 129 to 132 and one to four bytes most significant first; anything else is none |
| AcmeDer.TlvInverse | server/src/acme.rs:1293-1299 | an encoded triple is read back from any place in any input |
| AcmeDer.DerReads | server/src/acme.rs:1274-1382 | for every certificate skeleton the answer is what its validity reads as, and only when that is no time what the walk over the trailing fields finds |
| AcmeDer.DerInverse | server/src/acme.rs:1274-1382 | for every certificate skeleton - with or without version, any serial, signature and issuer without times, any trailing fields - with a readable notAfter, that notAfter is the answer |
| AcmeDer.UtcTimeCentury | server/src/acme.rs:1304-1317 | tag 0x17 with twelve digits and a Z is read as 19 and the digits from 50 up and as 20 and the digits below, by section 4.1.2.5 of RFC 5280 |
| AcmeDer.OtherTimes | server/src/acme.rs:1301-1331 | tag 0x18 is read as it stands; another tag, text that is not UTF-8 and a UTCTime of less than 11 bytes are none |
| AcmeDer.SignedYear | server/src/acme.rs:1314-1317 | a UTCTime may start with a sign: +5 reads as 2005 and -5 as 1995 |
| AcmeDer.Utf8Means | server/src/acme.rs:1302 | what passes as text is exactly what some Unicode characters are written as, by section 3 of RFC 3629 |
| AcmeDer.WhenCertificateAborts | server/src/acme.rs:1268-1382 | for every skeleton the reader stops the program exactly when one of the two times is a UTCTime of at least 11 bytes of UTF-8 whose third byte continues a character, or the notAfter is no time and the trailing fields hold such a time where the walk comes to it |
| AcmeDer.WhenAborts | server/src/acme.rs:1268-1382 | None is promised for anything that is not recognised, but for any bytes whatever the reader stops the program exactly when they are a SEQUENCE that starts with a SEQUENCE, in which a SEQUENCE has such a time among its first three members, and every SEQUENCE before it has none and no time that can be read |
| AcmeDer.EuroCertificateAborts | server/src/acme.rs:1268-1382 | nineteen bytes of DER on which the reader stops the program |
| AcmePem.DecodeEncode | server/src/acme.rs:2222-2233 | strict base64 decoding undoes encoding |
| AcmePem.EncodeDecode | server/src/acme.rs:2222-2228 | and decodes nothing but what encoding writes |
| AcmePem.EncodeAt | server/src/acme.rs:2222-2234 | every place of an encoding holds the letter of table 1 of RFC 4648 for its six bits of its three bytes, or an equals sign where no byte reaches |
| AcmePem.PemFromDer | server/src/acme.rs:2231-2241 | the chunk loop writes the lines of the encoding between the BEGIN and the END mark |
| AcmePem.ChunkedAt | server/src/acme.rs:2235-2238 | each line holds 64 characters, the last what is left, and each is ended |
| AcmePem.PemRoundTrip | server/src/acme.rs:2208-2241 | for every DER and every label, what is written under the label is read back under it |
| AcmePem.FirstCertificateDer | server/src/acme.rs:1242-1265 | the line loop decodes what stands between the first BEGIN and the END after it |
| AcmePem.LeafComesFirst | server/src/acme.rs:1241-1265 | of a chain the first certificate is read, whatever follows it; an empty block gives none |
| AcmeTrace.FirstHttp01 | server/src/acme.rs:949-955 | the first challenge of the http-01 kind, or none exactly when no challenge is |
| AcmeTrace.NoncesAreFresh | server/src/acme.rs:749-803 | if the server never issues one nonce twice, no two signed requests of any run carry the same nonce, and each was received before it was spent |
| AcmeTrace.GoOn | server/src/acme.rs:764-803 | a run stays in order under requests of its settled account when each is allowed by what came before |
| AcmeTrace.SetOut | server/src/acme.rs:1147-1156 | requests before the account is known are in order, and settle it on the URL the server gave |
| AcmeTrace.Proves | server/src/acme.rs:964-986 | a challenge is answered only after its token was offered and then written with its proof |
| AcmeTrace.Finalizes | server/src/acme.rs:1019-1061 | the request was accepted before the order was read valid |
| AcmeTrace.Completes | server/src/acme.rs:1138-1185 | the pieces of a run put together show its milestones in order |
| AcmeClient.Client.TakeNonce | server/src/acme.rs:749-761 | a held nonce is used up without a request, otherwise one HEAD fetches one; nothing is spent twice |
| AcmeClient.Client.Post | server/src/acme.rs:764-803 | at most four signed posts, all alike, each but the last answered with badNonce; the nonce of the last answer is the one held; an answer is returned exactly when each of them is signed, sent and answered |
| AcmeClient.Client.FindAccount | server/src/acme.rs:840-865 | looks up under newAccount; a success adopts the Location or its absence, accountDoesNotExist is no error |
| AcmeClient.Client.EnsureAccount | server/src/acme.rs:809-837 | adopts the URL the server granted, or fails and keeps what it had |
| AcmeClient.Client.NewOrder | server/src/acme.rs:868-910 | no domains is an error before any request; otherwise the order lives at the Location of a 2xx answer, has exactly the strings its document lists as authorizations, in their order, and its request goes to the finalize of that document |
| AcmeConduct.OrderIsListed | server/src/acme.rs:890-909 | what is taken out of an order document is each of its listed strings once, in order, and its finalize |
| AcmeClient.Client.PostAsGet | server/src/acme.rs:913-922 | a document only from a successful answer that is JSON |
| AcmeClient.Client.SolveHttp01 | server/src/acme.rs:929-1016 | reads, writes the token, answers, and reads again until valid; each failure is explained by the last event |
| AcmeClient.Client.Finalize | server/src/acme.rs:1019-1067 | posts the request until accepted, then only reads the order, and returns the certificate URL of a valid one |
| AcmeClient.Client.Download | server/src/acme.rs:1070-1098 | a chain only from a successful answer that holds a certificate |
| AcmeClient.Discover | server/src/acme.rs:728-746 | the directory of a successful answer, whose nonce is held first |
| AcmeClient.Identify | server/src/acme.rs:1149-1156 | finds the account or registers it, under the key itself |
| AcmeClient.SolveAll | server/src/acme.rs:1158-1161 | all listed authorizations seen valid, or the first failure |
| AcmeClient.Issue | server/src/acme.rs:1138-1185 | for any behaviour of server, disk and clock: jwk only on newAccount and one granted kid on everything after; no challenge answered before a 2xx answer offered it as the first of the http-01 kind and its token was written; before any certificate request a 2xx answer to newOrder placed an order for these names, every string that answer lists as an authorization was read valid, the request goes to its finalize, and only its Location is polled; on success the chain was downloaded from where the order, read valid there, said; every failure is accounted for; nonces stay balanced; and with a whole key and some domain a certificate is issued if and only if the world answers each step well, each listed authorization its own, badNonce up to three times aside, and it is the chain the world gives |
| AcmeConduct.Conducts | server/src/acme.rs:1158-1185 | the last stretch: each certificate request belongs to an order whose listed authorizations were all read valid before |
| AcmeConduct.OrderedAccounts | server/src/acme.rs:683-726 | which account each request names |
| AcmeConduct.OrderedAnswers | server/src/acme.rs:949-986 | what comes before the answer to a challenge |
| AcmeConduct.CompletedDelivers | server/src/acme.rs:1138-1185 | the milestones of a finished issuance, in terms of the documents the server sent |
| AcmeScript.MetOnceEach | server/src/acme.rs:1159-1161 | each listed authorization costs an exchange of its own, in list order |
| AcmeScript.OffersMeans | server/src/acme.rs:949-975 | an authorization can be met exactly when its first http-01 challenge has a token and a URL |
| BackupArchive.Validate | server/src/backup.rs:99-132 | accepts exactly the manifests with format ferroma-archive and version 1, a dump version, a named producer, and members with paths, listed once, other than manifest.json |
| BackupArchive.HashAndCopy | server/src/backup.rs:143-159 | hashing piece by piece gives the hash of the whole, however reads cut it |
| BackupArchive.MembersFromPlanned | server/src/backup.rs:162-177 | one member for each planned file in order with its size and hash; an unreadable file is an error |
| BackupArchive.BuildArchive | server/src/backup.rs:1024-1046 | the manifest first, then every planned file as it is now |
| BackupArchive.ReadManifest | server/src/backup.rs:1049-1069 | the first entry that reads as the manifest, trailing slashes and dots aside, decides: accepted exactly when it parses and validates |
| BackupArchive.WrittenIsAccepted | server/src/backup.rs:1024-1142 | an archive is accepted exactly when every planned file kept its size and hash between listing and writing, and then holds exactly those files |
| BackupArchive.ManifestIsReadBack | server/src/backup.rs:1024-1069 | the manifest of a written archive is read back and accepted as it was |
| BackupExtract.PlainPlace | server/src/backup.rs:1104 | a name of file names only leads straight into the staging directory |
| BackupExtract.NameShortens | server/src/backup.rs:1104 | inside a name an empty piece or a dot leads nowhere, and two dots take back the file name before them |
| BackupExtract.NameLeaves | server/src/backup.rs:1104 | a leading slash leads to the root, and leading two dots out of the directory |
| BackupExtract.Store | server/src/backup.rs:1104-1123 | an entry is written where its name leads, absolute names and .. obeyed, with the directories on the way made; whatever fails, nothing beyond the staging directory is touched unless the name strays, and a stored name that strays does touch it; with no failing step one that is not stored touches it exactly when its way needs a missing directory out there before what stands in it |
| BackupExtract.ExtractEntry | server/src/backup.rs:1086-1132 | an entry is stored only if it is listed with this size, and refused after it is stored if its hash differs |
| BackupExtract.ExtractAndVerify | server/src/backup.rs:1073-1142 | succeeds only if all entries match, all members appear and all ways are free, and with no failing step whenever they do; whatever fails, nothing beyond the staging directory is touched when no entry that is reached strays, and on success something is when one does; with no failing step something is touched if and only if an entry strays that is reached and finds its way free, or the first obstructed one makes a directory out there before it comes to the obstruction |
| BackupExtract.Leaves | server/src/backup.rs:1104-1123 | a place that entries lead to holds the bytes of one of them, and every other file is as it was |
| BackupExtract.AcceptedIsListed | server/src/backup.rs:1073-1142 | after an accepted extraction exactly the places of listed members were written; all hold bytes with their listed hash if and only if members that share a place agree on it; when no two share one, each holds the bytes stated under its own name and listed size |
| BackupExtract.SharedPlace | server/src/backup.rs:1087-1104 | an archive that lists mail/a and mail/./a is accepted with every size and hash right, and leaves bytes that are not those listed for the first |
| BackupExtract.PlainFits | server/src/backup.rs:1073-1142 | plain names that fit into one tree are all stored, and put exactly the stated content under the staging directory |
| BackupLayout.SameLayout | server/src/backup.rs:1651-1720 | what one layout exported the same layout gets back, every file at its path with its bytes and nothing else, however its roots are nested |
| BackupLayout.AnyLayout | server/src/backup.rs:1651-1720 | exports of any other layout are installed whole if and only if the five destinations are separate; otherwise a later copy wipes or blocks an earlier one |
| BackupLayout.DefaultIsSeparate | server/src/backup.rs:1651-1668 | the default layout is separate |
| BackupExport.CollectDir | server/src/backup.rs:183-206 | every file inside the directory is planned once under its section, in whatever order the walk meets them |
| BackupExport.CollectOptionalFile | server/src/backup.rs:209-221 | a single file is planned when it exists |
| BackupExport.Plan | server/src/backup.rs:1245-1265 | exactly mail/ and rest for each file below the Maildir root, attachments/ and rest for each below the attachment root, dkim/ and rest for each below dkim in the data directory, database.json and jwt_secret when they stand there, and postgres/dump; no archive path twice |
| BackupExport.PlanExports | server/src/backup.rs:1245-1265 | what is read for a plan is exactly the files of the sections and the dump |
| BackupExport.Export | server/src/backup.rs:1245-1291 | the same five kinds of files and the dump: manifest.json first, then each planned file under its archive path with its bytes as they are then; its members are listed before its files are written |
| BackupExport.ExportThenImport | server/src/backup.rs:1243-1291 | an export of files that keep still is accepted, and installed under the same layout brings back every mail, attachment, dkim, database.json and jwt_secret file at its own path with its bytes and nothing else |
| BackupHost.Host.WipeSchema | server/src/backup.rs:1570-1580 | drops all rows, and may fail between the two statements |
| BackupInstall.CopyTree | server/src/backup.rs:1675-1720 | touches nothing outside its target in any outcome; on success a directory took the target's place, or a file was written; with no failing step it succeeds on a well-formed staging whenever its place is free |
| BackupInstall.InstallStaging | server/src/backup.rs:1651-1668 | on success every place on disk holds what the last name moved over it has staged for it - mail to the Maildir root, attachments to the attachment root, dkim, database.json and jwt_secret into the data directory - or nothing, and a place none is moved over is as it was; into empty places that are apart each staged file is put at its own; in any outcome only those places were touched; with no failing step it succeeds whenever each section finds its place free and no directory stands where a single file goes |
| BackupPlaces.InstalledMoves | server/src/backup.rs:1651-1720 | installing is these five moves in order, over any files |
| BackupPlaces.MovedPlaces | server/src/backup.rs:1651-1720 | over empty places that are apart the moves put each staged file where it belongs, and change nothing else |
| BackupInstall.ImportRoots | server/src/backup.rs:1584-1598 | the data directory, the Maildir root when it is not inside it, and the attachment root when it is inside neither; so what is cleared is what stands at or below one of the three |
| BackupInstall.RootsCover | server/src/backup.rs:1582-1598 | every destination is at or inside a root that is cleared, for all nestings |
| BackupInstall.RootsApart | server/src/backup.rs:1600-1629 | no root is inside one listed before it |
| BackupInstall.CheckAndClearDataDirs | server/src/backup.rs:1603-1629 | refuses exactly when a root is seen to have entries and may not be replaced, and changes nothing then; otherwise clears all roots if one was seen in use, and none if not; with no failing step clearing succeeds when no file is at or above a root |
| BackupImport.RestoreDatabase | server/src/backup.rs:1425-1463 | without replace accounts are never removed; the schema is wiped only with replace or without accounts; success means the dump is loaded, its pg_dump version is that of the server, and there were no accounts or they may be replaced |
| BackupImport.KeptExactly | server/src/backup.rs:1651-1720 | installing over files keeps them all if and only if each is brought back, with its bytes, by the last section that takes its place |
| BackupImport.RestoreFiles | server/src/backup.rs:1465-1468 | the sections are installed over all files, or over those outside the roots when one was seen in use; without replace and with every root in use listed, every file is kept |
| BackupImport.Verify | server/src/backup.rs:1371-1407 | the import goes on only with an archive that is sound throughout; before that nothing beyond the staging directory is touched if no reached entry strays, and something is if one does and the archive passes; with no failing step exactly when unpacking goes astray; and untouched means unchanged |
| BackupImport.Import | server/src/backup.rs:1371-1472 | for any archive and any failing steps, as long as no reached entry strays: nothing beyond the staging directory is touched before verification, no file before the dump is loaded, none outside the roots ever, without replace no account is lost, no file if the roots in use can be listed, and on success exactly the files no section brings back; if an entry strays that order is broken by every success, and with no failing step it is broken exactly when unpacking goes astray; success means the archive is sound and exactly what was staged from it is installed, and with no failing step a ready import succeeds |
| BackupImport.PlainArchive | server/src/backup.rs:1371-1407 | an archive with plain names that fit into one tree does not stray, and stages exactly what it states |
| BackupRuns.WelcomingHasRoom | server/src/backup.rs:1603-1629 | roots that are empty or cleared leave room for every destination, with no directory in the way |
| BackupRuns.ExportAndImport | server/src/backup.rs:1243-1472 | importing what an export wrote succeeds whenever no step fails and the roots are empty or may be replaced: the database holds the dump, every mail, attachment, dkim, database.json and jwt_secret file is back at its own path with its bytes, and nothing else is there but what was outside the roots |
| BackupRuns.MisreadingLosesMail | server/src/backup.rs:1631-1636 | an import without replace in which of all steps only the listing of the roots in use fails succeeds, and removes every other file under the Maildir root |
| BackupRuns.StrayingArchive | server/src/backup.rs:1104-1132 | an archive with one absolute name and a wrong hash is refused, but its bytes are already written to the place that name leads to |

## Left out

- QR: turning a string into UTF-8 and the SVG text; other levels, modes and masks, which the code does not draw.
- QrDamage.SymbolTolerance: counts flipped modules of the payload; damage to the patterns and format strips is not
  modelled, and `QrScanner` detects damage but does not correct it.
- Folders: drawing the tree, drag events, and the server's rename behind a move. `FolderMoves` models a move as the change
  of one parent; `FolderDrop` takes whatever folders the server sends after it.
- Folders: JavaScript's `sort` is modelled as the one arrangement its comparison allows; a parent that is no integer is
  modelled as absent, and a folder's sort key as a natural number with special folders told apart by it.
- FolderTree.PermutationInvariance: assumes distinct positive ids, distinct names and one folder per special use, as do the
  other theorems of `FolderTree`; with equal names the last one listed would win.
- FolderTree.DragMoves: says what becomes of every list only between drawn siblings, by which it means two folders without
  a parent, or two that are drawn inside one folder; for a cycle cutter at the top level, and between any other folders,
  `FolderDrop.EdgeDropIsBeside`, `FolderDrag.DropIsBeside` and `FolderDrag.OthersKeepOrder` hold.
- Listeners.Supervisor.Start: a failure after SMTP is running ends the model; what dropping its handle does is not visible.
- Listeners: an IMAP task is taken to bind, or fail to, before the next command is served; one that dies after it has
  bound, and a client that goes away before its reply, are not modelled.
- ACME: signatures, the JWK, and the hash in the proof of a challenge; section 8.3 of RFC 8555 is not claimed for its body.
- ACME: the wall clock; whether a deadline has passed comes with each answer. Polling ends because answers run out.
- AcmeClient.Client.EnsureAccount: the contact line made from the trimmed address is kept as the address given.
- AcmeDer.DerInverse: the fifteen-character date is read by a parameter, as chrono does it; that time zones and impossible
  dates are refused is not modelled.
- AcmeDer: the address width; offsets are unbounded, so the overflow check of `server/src/acme.rs:1297` never fires.
- AcmePem: trimming knows the ASCII space characters only.
- Backup: the byte layout of tar, JSON (an opaque pair), SHA-256 (any function), file modes and times, symbolic links,
  names that are not UTF-8, and paths as another system than Unix reads them.
- BackupExtract.ExtractAndVerify: an archive with a name that leads to its own file, which it would overwrite while it is
  read.
- BackupImport.Import: the staging directory is new and lies apart from the three roots; once the archive is verified or
  refused it is kept as a value of its own, and is no part of the host any more.
- Backup: S3 and WebDAV transfers, finding the PostgreSQL tools, and port probing are steps that may fail.
- Backup: the counts of the manifest and the report lines printed.
- BackupExport.Export: the temporary directory with the dump lies outside the roots.
- BackupHost.Host.WipeSchema: what `DROP SCHEMA` does to anything but accounts.
- BackupImport.Import: a file that stands exactly where a root should be may be written over by an archive that stages a
  file of that section's name; the statement that files are kept is about all others.
