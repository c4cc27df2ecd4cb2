# Proofs about omabox

A Dafny model of the parts of omabox whose behaviour is a protocol, a state machine or a fast form of a
simple rule, with proofs that hold for every input, run or interleaving. Each module follows one part of
the program:

| file | models |
|---|---|
| `Merging.dfy` | the merging of changed regions (`share/check.py`): boxes grown in place over repeated passes |
| `TreeKeys.dfy` | the places of a dumped tree's elements, and a crop of it (`share/check.py`) |
| `Drawn.dfy` | whether something is drawn over a point: cells, a flood fill, boxes (`crates/omabox/src/drawn.rs`) |
| `EditDistance.dfy` | the nearest option name (`crates/omabox/src/args.rs`) |
| `Codes.dfy`, `Utf8.dfy` | the strict text decoder of the virtual keyboard (`tools/keyboard/keyboard.c`); `Codes.dfy` is for any code without prefixes |
| `HeldKeys.dfy` | the holder of keys kept down, its state file, its recovery, and the check before a run |
| `BwrapLines.dfy`, `JailPolicy.dfy`, `JailOptions.dfy` | a jail's policy read from its bwrap command line (`crates/omabox/src/broker_side.rs`) |
| `Paths.dfy`, `Seat.dfy`, `BindBuilder.dfy` | the builder of a box's bwrap command (`crates/omabox/src/bwrap.rs`) |
| `LockFile.dfy` | the lock file a holder may remove (`crates/omabox/src/boxes.rs`) |
| `Notices.dfy` | the recorder of notices and its table of calls waiting for replies (`tools/notices/notices.c`) |
| `Marks.dfy` | marks drawn over the view, cleared and damaged only where drawn (`tools/peek/peek.c`) |
| `TreeWalk.dfy` | the walk over an accessibility tree and the point to click (`tools/tree/tree.c`) |
| `StillWait.dfy` | the loop that waits for a still screen (`tools/still/still.c`) |
| `Scales.dfy`, `Blinkers.dfy` | which changes of the screen count: carets and blinkers (`tools/still/still.c`) |
| `Options.dfy` | an optional value |

`dafny verify dfyconfig.toml` checks the whole project.

What the outside gives is a parameter or an event: the time, files' contents and real paths (`read`,
`resolve`, `host`), the compositor's frames and releases, the bus's messages, the tree's answers (which may
change from one visit to the next), fonts, keyboard layouts (`typeable`) and lower case. A text is a
sequence of characters, one for each byte where the source works on bytes. Numbers are unbounded.
A few values carry one thing the source's do not, so that properties can be stated: a notice's line carries
the number of its call, an output when its last copy was asked for, a round whether one was refused.

## What the proofs found

Where the code and what is said of it disagree, the model does what the code does.

- Cells drawn are one item when steps between drawn cells lead from one to the other, each of at most twice
  GAP cells one way and at most one more the other, and only then; the comments at
  `crates/omabox/src/drawn.rs:84` and 141 say GAP (`Drawn.DrawnTogetherExactly`).
- `crop_tree` promises that an element without bounds goes with its nearest ancestor that has some. It does in
  a dump that goes down one level at a time (`TreeKeys.BoundlessGoesWithAnchor`); with a level skipped in
  between it is left out of each crop the other is in (`TreeKeys.GoesExactly`, `TreeKeys.SkippedLevelLeft`).
  The dumps taken do not skip: a line's depth is the number of printed nodes it is under, 64 at most
  (`tools/tree/tree.c:511-520`), so the first line is at 0 and none is more than one below the line before;
  only `--find`, which leaves lines out, gives such a list, and a crop's dump is taken without it
  (`crates/omabox/src/cmd/check.rs:1792-1801`).
- A role with a slash in it can give two elements one key (`TreeKeys.SlashedRolesCollide`); without one keys
  are always apart. With one such role beside others without, keys are always apart exactly when some piece of
  it, before its last slash, is neither "?" nor a role and a number (`TreeKeys.SlashedExactly`).
- A list of `down:` and `up:` that the check accepts can fail half-way when a killed holder left keys: one of
  them let go of after another key went down (`HeldKeys.LateUpFails`). It succeeds exactly when there is no
  such one (`HeldKeys.RunFollowsCheck`).
- The holder's shutdown after a signal removes its state file before it lets go of the keys: killed at any
  step of it but the last, it leaves down what is down then (`HeldKeys.Seat.LetGo`,
  `HeldKeys.LettingGoLeaves`), so it is safe at every step only with nothing held (`HeldKeys.LettingGoIsSafe`).
- A save of the state file that fails says nothing, and the key is pressed. Whatever saves failed, a holder
  killed at any step leaves down exactly the keys that are not in the list of the last save that worked
  (`HeldKeys.KilledLeaves`): two after two that failed (`HeldKeys.TwoFailuresLeaveTwo`), and none at any step of a
  run exactly when no key is put down with a save that fails but one that list has (`HeldKeys.RunLeaves`).
- A mask is reported under the first kept folder it lies in. Where that folder leads elsewhere on the host than
  the one it is in, through a link, the latter's part of the mask is not reported (`JailPolicy.MaskLost`); the
  masks of a folder are reported at its own place exactly when the first kept folder over it, if any, leads to
  the same place (`JailPolicy.MasksAre`).
- A mask whose path has a newline is reported as several paths, of which none need be at or above it
  (`JailPolicy.MaskInLines`). In a folder whose masks are at its own place, what no mask is at or above is the
  host's exactly when everything of the jail's own with such a path has one all the same
  (`JailPolicy.RootIsTheHosts`).
- `seat_path` and `holds_seat` agree with the part-by-part rule except when the runtime folder comes to `/`
  (`Seat.SeatCheckExact`).
- The lock is safe only while a process's look at its own file succeeds: failing, with the path gone, "no
  file" equals "no file" (`LockFile.FstatNeeded`).
- "still" or "settled" can be answered on an output's copy that was asked for before the quiet time was over:
  a change found early in the round of copies while another output's copy is slow, or a round begun because
  time was up (`StillWait.StaleCopy`, `StillWait.StaleAtTimeout`). With no copy refused, every copy is fresh
  exactly when neither is so (`StillWait.FreshExactly`); with one output it is whenever the quiet time was over
  before time was up (`StillWait.OneIsFresh`).

## Model

| member | source | states |
|---|---|---|
| `Merging.Merge` | share/check.py:74-91 | The regions returned are, each, the tight box of the input boxes inside it with their areas added; no point of one is the gap or less from a point of another, across and down, every point of an input box is in one, they are in order of their first row and then column, and no coarser or finer grouping would do. The loop ends. |
| `Merging.MergePass` | share/check.py:78-90 | One pass over boxes grown in place equals the pass as a function of their values, keeps the boxes apart as objects, and reports a merge exactly when the list got shorter. |
| `Merging.MergeInto` | share/check.py:80-89 | A box goes into the first kept one it is near, which grows in place, or to the end when it is near none. |
| `Merging.MergedIsMerged` | share/check.py:74-91 | For all well-formed boxes and gaps, what repeated passes come to is a merging: tight boxes of the finest grouping whose boxes are pairwise further than the gap apart. |
| `Merging.NearByPoints` | share/check.py:82 | Boxes are near exactly when a point of one and a point of the other, edges included, are the gap or less apart, across and down. |
| `Merging.WithinByPoints` | share/check.py:83-84 | A box is within another exactly when all its points are. |
| `Merging.MergedByPoints` | share/check.py:74-91 | So what is merged has no two boxes with points that near, and every input in one. |
| `Merging.LeastByPoints` | share/check.py:83-84 | A merged box is the least: any rectangle that has the inputs in it has the box. |
| `Merging.MergedIsUnique` | share/check.py:74-91 | What a merging promises has one answer: any list that promises it is the one computed. |
| `Merging.MergeOrderFree` | share/check.py:74-91 | Every permutation of the input gives the identical list, so passes are confluent. |
| `Merging.MergedSum` | share/check.py:85 | Areas are conserved over all passes and the sort. |
| `Merging.SplitSpecks` | share/check.py:99-106 | The parts under the speck size are counted, with their pixels and their largest; the others are kept, in order and as the same objects. |
| `Merging.Regions` | share/check.py:98-109 | The regions are the merging of the parts that are no specks; their areas and the specks' pixels add up to all pixels, and the largest speck is one and at least every one. |
| `TreeKeys.Load` | share/check.py:140-165 | The stack and the per-level counters give every node the key its place has by definition (its ancestors' roles and counts, levels skipped filled with "?"), for every list of depths. |
| `TreeKeys.CountIs` | share/check.py:154-164 | The number in a key is that of the earlier elements of the role under the same parent: those at its depth since which none was nearer the root. |
| `TreeKeys.KeysApart` | share/check.py:148-164 | Distinct nodes of any preorder list, depth jumps or not, get distinct keys when roles hold no slash. |
| `TreeKeys.LoadKeepsAll` | share/check.py:147-165 | So loading loses no element: the keys are those of the nodes, in order, and each key has its node. |
| `TreeKeys.SlashedRolesCollide` | share/check.py:163-164 | With a slash in a role it can: three nodes of which two get the same key. |
| `TreeKeys.SlashedExactly` | share/check.py:163-164 | For each role with slashes, beside any others without: in every dump keys are apart exactly when one of the role's pieces before its last slash can stand for no element and no level skipped. |
| `TreeKeys.SlashedApart` | share/check.py:148-164 | With such a piece, distinct nodes of any such list get distinct keys: a key's pieces tell its parts. |
| `TreeKeys.SlashedCollide` | share/check.py:163-164 | Without one, there is a list whose last two elements get one key. |
| `TreeKeys.CropTree` | share/check.py:245-274 | The crop's dump is the elements kept, in order, each with its key in the whole tree, a root with the crop. |
| `TreeKeys.Seeds` | share/check.py:253-260 | An element is in the crop by itself when it is a root, when its bounds touch the crop, or, without bounds, when its parent is. |
| `TreeKeys.OverlapIs` | share/check.py:253-260 | Bounds touch a crop exactly when a pixel is in both. |
| `TreeKeys.Close` | share/check.py:261-266 | Adding the ancestors of what is inside gives exactly the elements in the crop by themselves and every ancestor of one. |
| `TreeKeys.CropIsPart` | share/check.py:245-274 | Over a whole dump: its crop, read again, is a sub-map of the whole tree with exactly the elements in the crop by themselves and those above one in the dump; so it is closed under ancestors, and has every root and every element that touches the crop. |
| `TreeKeys.AncestorsAre` | share/check.py:154-164 | One key is an ancestor's of another, as text, exactly when its element is above the other's in the dump, whatever levels the dump skips. |
| `TreeKeys.ReloadCrop` | share/check.py:149-153 | Loading a crop's dump gives back the elements kept, at the keys they have in the whole tree: a round trip that is a sub-map of it. |
| `TreeKeys.ParentBefore` | share/check.py:154-164 | A key's parent key, when it is a node's, is that of the last element before it nearer the root, one level up. |
| `TreeKeys.BoundlessExactly` | share/check.py:253-260 | An element is in the crop by itself exactly when no level is skipped up to the nearest at or above it that has bounds, or is a root, and that one is in. |
| `TreeKeys.BoundlessGoesWithAnchor` | share/check.py:245-250 | In a dump that goes down one level at a time, every element without bounds goes with its nearest ancestor that has some, and is in when only the root is left. |
| `TreeKeys.GoesExactly` | share/check.py:245-260 | For any dump: an element without bounds goes with that ancestor in every crop exactly when no level is skipped on the way, or there is none; else it is left out of each crop that one is in. |
| `TreeKeys.SkippedLevelLeft` | share/check.py:258-260 | A dump of three elements with a level skipped, and a crop that has the one with bounds and not the one without under it. |
| `Drawn.MarkCells` | crates/omabox/src/drawn.rs:129-140 | A cell is marked exactly when a pixel of it differs from the window's, the window's own two shots agree there and no ignored rectangle holds it. |
| `Drawn.DiffersExactly` | crates/omabox/src/drawn.rs:77-97 | A pixel differs exactly when a channel of the screen is more than 24 from the window's own, no channel of the window's two shots more than 8 apart, and no ignored rectangle has it. |
| `Drawn.Dilate` | crates/omabox/src/drawn.rs:141-153 | The cells near are exactly those within GAP cells, both ways, of a drawn one. |
| `Drawn.Fill` | crates/omabox/src/drawn.rs:161-190 | From a start, the stack-based fill gives the new number to exactly the cells linked to it by steps between near neighbours, leaves every other cell's, ends, and returns the tight box of the drawn cells among them. |
| `Drawn.LabelAll` | crates/omabox/src/drawn.rs:154-190 | Every near cell is in exactly one part; parts are the 4-connected components, numbered by their first cell, each with the tight box of its drawn cells. |
| `Drawn.DrawnAt` | crates/omabox/src/drawn.rs:114-207 | The verdict is the one of the boxes of those components, or cannot be told when the images do not match or the point is outside. |
| `Drawn.ItemsUnique` | crates/omabox/src/drawn.rs:154-190 | The components and their boxes are determined by the drawn cells: no choice of the fill shows. |
| `Drawn.VerdictUnique` | crates/omabox/src/drawn.rs:114-207 | So is the verdict. |
| `Drawn.DrawnTogetherExactly` | crates/omabox/src/drawn.rs:141-190 | Drawn cells are in one component exactly when drawn cells lead from one to the other by steps of at most 2 GAP one way and at most 2 GAP + 1 the other. |
| `Drawn.ClusterHasDrawn` | crates/omabox/src/drawn.rs:142-189 | Every component has a drawn cell, so every box is a real one. |
| `Drawn.NotHereExactly` | crates/omabox/src/drawn.rs:191-200 | Nothing is drawn at the point exactly when no component's box, PAD larger, holds its cell. |
| `Drawn.VerdictExactly` | crates/omabox/src/drawn.rs:191-206 | The three verdicts by drawn cells alone: nothing is drawn there when no component has drawn cells around the point, PAD larger; else the component with the first cell among those that have decides: it cannot be told when the grid is over twice GAP both ways and that one has drawn cells within a cell of all four edges; else something is drawn there. |
| `Drawn.NotHereStays` | crates/omabox/src/drawn.rs:114-207 | Once nothing is drawn at a point, ignoring more rectangles never changes that. |
| `EditDistance.Fill` | crates/omabox/src/args.rs:176-185 | An entry of the table from the three or four before it. |
| `EditDistance.Distance` | crates/omabox/src/args.rs:167-187 | The table's last entry is the least cost of any script of insertions, deletions, substitutions and swaps of neighbours that turns one word into the other. |
| `EditDistance.EntryIsLeast` | crates/omabox/src/args.rs:176-186 | Every pair of words: the recurrence's value is reached by a script and no script costs less. |
| `EditDistance.LeastSymmetric` | crates/omabox/src/args.rs:166-187 | The distance is the same both ways. |
| `EditDistance.ZeroIffSame` | crates/omabox/src/args.rs:166-187 | It is zero exactly for equal words. |
| `EditDistance.OneTypo` | crates/omabox/src/args.rs:166-187 | It is one exactly when one word is the other with a letter wrong, missing or extra, or two neighbours swapped. |
| `EditDistance.LeastBounds` | crates/omabox/src/args.rs:166-187 | It is at least the difference of the lengths and at most the longer one. |
| `EditDistance.CollectChoices` | crates/omabox/src/args.rs:196-201 | The candidates once each, none empty, in order. |
| `EditDistance.ByStart` | crates/omabox/src/args.rs:203-212 | A candidate is named exactly when it is the only one the word starts. |
| `EditDistance.StartIs` | crates/omabox/src/args.rs:203-212 | That is: the candidate is the word and something more, and no other is. |
| `EditDistance.TrimIs` | crates/omabox/src/args.rs:203 | What is counted of a word is what is left after the dashes it begins with. |
| `EditDistance.ByDistance` | crates/omabox/src/args.rs:213-237 | A candidate is named exactly when it is the only nearest one, is not the word, and is within the typos allowed for the word's length. |
| `EditDistance.NearestIs` | crates/omabox/src/args.rs:213-237 | That is: one edit from the word, or two past four letters, three past ten, and every other candidate more. |
| `EditDistance.DidYouMean` | crates/omabox/src/args.rs:192-238 | The start's answer first, for words of two letters or more besides dashes, else the distance's, else none. |
| `Utf8.Decode` | tools/keyboard/keyboard.c:278-295 | Reads a character exactly when the bytes at the pointer are the well-formed encoding of a nonzero scalar value, moves on by its length, never past the NUL, and otherwise stays. |
| `Utf8.EncodedShape` | tools/keyboard/keyboard.c:280-294 | An encoding has the lead byte of its length, continuation bytes after it, and the number they make, least for that length and no surrogate. |
| `Utf8.ShapeEncoded` | tools/keyboard/keyboard.c:280-294 | And bytes of that shape are an encoding: the accepted shapes are exactly the encodings. |
| `Utf8.EncodingUnique` | tools/keyboard/keyboard.c:278-295 | At a place there is at most one encoding. |
| `Utf8.Utf8Coding` | tools/keyboard/keyboard.c:278-295 | The encoding is a code: no character's is empty, has a NUL, or starts another's. |
| `Utf8.DoText` | tools/keyboard/keyboard.c:430-443 | The loop gets through a whole text exactly when it is well-formed to its NUL and each character can be typed; what it typed before it stopped is a prefix of it. |
| `Utf8.EncodedTextIsTyped` | tools/keyboard/keyboard.c:430-443 | The encoding of any characters is read back as those characters: a round trip. |
| `Codes.SpellsUnique` | tools/keyboard/keyboard.c:430-443 | For any code, a text spells at most one sequence of characters. |
| `HeldKeys.Seat.Serve` | tools/keyboard/keyboard.c:604-643 | One request answered, with a save that works or not and whatever saves failed before. By the keys down: of a code of the keymap, a down: is done exactly when it is not down and fewer than 32 are, an up: exactly when it is; each other reply comes exactly for its own reason, with nothing changed; and the keys down then are those with the key or without it. The steps between and the file (the list of the last save that worked) are those of the request; every key down stays in the file all along exactly when it was and no key is put down with a save that fails but one the file has. |
| `HeldKeys.Seat.HeldServe` | tools/keyboard/keyboard.c:588-643 | The holder's loop, over any requests and any pattern of saves that fail, takes exactly the steps of those requests up to the one that leaves nothing held. |
| `HeldKeys.AnswerByKeys` | tools/keyboard/keyboard.c:610-636 | What the holder answers and then holds, said by the keys it holds. |
| `HeldKeys.OneFits` | tools/keyboard/keyboard.c:610-636 | The reasons shut each other out: one reply fits. |
| `HeldKeys.Seat.Save` | tools/keyboard/keyboard.c:539-547 | The file holds the codes, or, when it cannot be opened, written or renamed, what it held before; nothing is said. |
| `HeldKeys.KilledLeaves` | tools/keyboard/keyboard.c:539-558 | Killed at any step ever, whatever saves failed, the holder leaves down after the next run's recovery exactly the keys down that are not in the list of the last save that worked: none exactly when all are. |
| `HeldKeys.KilledIsRecovered` | tools/keyboard/keyboard.c:604-643 | So the recovery lets go of every key at every step exactly when every key down was in the file all along. |
| `HeldKeys.RunLeaves` | tools/keyboard/keyboard.c:604-643 | Over any requests and pattern of failures: nothing is left at any step exactly when no key is put down with a save that fails but one in the file; with saves that work nothing ever is. |
| `HeldKeys.TwoFailuresLeaveTwo` | tools/keyboard/keyboard.c:539-547 | Two keys put down with saves that fail are both left. |
| `HeldKeys.Seat.LetGo` | tools/keyboard/keyboard.c:644-652 | The shutdown after a signal: the file goes first, then each key from the last; the steps recorded are exactly those. |
| `HeldKeys.LettingGoLeaves` | tools/keyboard/keyboard.c:644-652 | Killed at the k-th of those steps, it leaves down for good the keys still down then: none at the last step only. |
| `HeldKeys.LettingGoIsSafe` | tools/keyboard/keyboard.c:644-652 | So it is safe at every step exactly when nothing was held. |
| `HeldKeys.Run.HeldStale` | tools/keyboard/keyboard.c:739-768 | A run that finds a dead holder's file lets go of what it names, remembers it and removes the file. |
| `HeldKeys.Run.HeldCheck` | tools/keyboard/keyboard.c:795-820 | The simulated pass over one token: an up: is accepted exactly when its key is in the list, a down: exactly when its key is not down for a live holder or this run, and is in the list or there is room. |
| `HeldKeys.CheckByKeys` | tools/keyboard/keyboard.c:795-820 | And the keys in the list then, and those taken to be live. |
| `HeldKeys.Run.AskHolder` | tools/keyboard/keyboard.c:828-837 | The holder asked, started for a first key down, and its answer, with a save that works or not. |
| `HeldKeys.SendByKeys` | tools/keyboard/keyboard.c:822-857 | A request sent goes through exactly when a live holder, or one started for it, lets it, or it lets go of a killed holder's key with no other alive; and the keys down then. |
| `HeldKeys.Run.DoHeld` | tools/keyboard/keyboard.c:822-857 | The real pass over one token: asks the holder, starts one for a first key down, and drops leftovers, whether the holder's save works or not. |
| `HeldKeys.Run.CheckTokens` | tools/keyboard/keyboard.c:874-898 | The check pass over a token list is the simulation of it. |
| `HeldKeys.Run.SendTokens` | tools/keyboard/keyboard.c:874-898 | The run pass is the sequence of requests it stands for, whatever saves fail. |
| `HeldKeys.Run.Keys` | tools/keyboard/keyboard.c:874-898 | Nothing is sent unless the whole list was accepted; with a live holder or no leftovers, it then succeeds whole; and a run that succeeds leaves down exactly the keys that were, with those put down and without those let go of, in its order. |
| `HeldKeys.SentKeys` | tools/keyboard/keyboard.c:822-857 | The same of the requests sent, whatever saves fail. |
| `HeldKeys.CheckIsRun` | tools/keyboard/keyboard.c:773-857 | Without leftovers the check accepts exactly what the run gets through, for every token list, with a holder that ends and is started again in between, whatever saves fail, and both end with the same held keys in the same order. |
| `HeldKeys.CheckIsExact` | tools/keyboard/keyboard.c:773-857 | The same from a run's start, for any live holder or none. |
| `HeldKeys.RunFollowsCheck` | tools/keyboard/keyboard.c:795-857 | With leftovers of a killed holder, an accepted list is run through exactly when it lets go of no leftover after a new holder took over. |
| `HeldKeys.CheckedRunSucceeds` | tools/keyboard/keyboard.c:773-857 | The same from a run's start. |
| `HeldKeys.LateUpFails` | tools/keyboard/keyboard.c:795-857 | A list that is accepted and then refused: a leftover let go of after another key went down. |
| `BwrapLines.ReadLine` | crates/omabox/src/broker_side.rs:80-135 | A line is read exactly when its words are whole known options up to a "--", its one --args replaced by the words it names; then the network, the places mounted and the binds at their own path are those of its options. It ends, whatever the --args brings. |
| `BwrapLines.OptionsUnique` | crates/omabox/src/broker_side.rs:90-135 | A line has its options in one way only, with the --args taken in or not. |
| `BwrapLines.TakeArgs` | crates/omabox/src/broker_side.rs:95-109 | An --args is taken in once: refused the second time, cut short, or unreadable, and then the line has no options at all. |
| `BwrapLines.TakeOption` | crates/omabox/src/broker_side.rs:110-131 | One option moves on by its words and adds what it mounts or says of the network. |
| `JailPolicy.PolicyOf` | crates/omabox/src/broker_side.rs:80-178 | A policy read has the network of the options and the roots and masks of their mounts; a line refused has no options. |
| `JailOptions.NetExactly` | crates/omabox/src/broker_side.rs:115-116 | The jail has the host's network exactly when after every --unshare-net or --unshare-all comes a --share-net. |
| `JailOptions.NetOptions` | crates/omabox/src/broker_side.rs:115-116 | Which options take the network away, and which gives it, out of all words. |
| `JailOptions.BindOptions` | crates/omabox/src/broker_side.rs:117-123 | Which options bind a path at the word after it. |
| `JailOptions.FirstOptions` | crates/omabox/src/broker_side.rs:124-125 | Which mount something else at their first word. |
| `JailOptions.SecondOptions` | crates/omabox/src/broker_side.rs:126-127 | Which at their second. |
| `JailOptions.ThirdOption` | crates/omabox/src/broker_side.rs:128 | Which at their third. |
| `JailOptions.TablesAgree` | crates/omabox/src/broker_side.rs:15-46 | Every option a box's command is read back with is one the policy knows, with as many words, and it binds here what it binds there. |
| `JailOptions.AboveByParts` | crates/omabox/src/broker_side.rs:58-65 | Of plain paths the text tests for being in a folder, and at or above a path, are those of the parts. |
| `JailOptions.TrimIs` | crates/omabox/src/broker_side.rs:58-61 | One slash comes off the end of a path, and no more. |
| `JailPolicy.Roots` | crates/omabox/src/broker_side.rs:136-155 | The roots are the binds at their own path that no later mount covers and that are there, in order, each masked exactly when a later mount is inside it. |
| `JailPolicy.MasksIn` | crates/omabox/src/broker_side.rs:156-172 | The masks are, for each mount that is no such bind, its path in the first kept folder it lies in, a line each. |
| `JailPolicy.RootsAre` | crates/omabox/src/broker_side.rs:136-155 | A folder is reported exactly when some bind of it is kept. |
| `JailPolicy.MasksAre` | crates/omabox/src/broker_side.rs:156-172 | For any real paths, newlines or not: what of the jail's own is mounted in a kept folder is reported at its place in the first kept folder it is in, a line each; that is its place in the host's folder exactly when the first kept folder over that one, if any, leads to the same place; and a place without a newline is reported itself exactly then. |
| `JailPolicy.MasksOnly` | crates/omabox/src/broker_side.rs:156-172 | And every mask is a line of such a mount's place, in the first kept folder it is in. |
| `JailPolicy.RootIsTheHosts` | crates/omabox/src/broker_side.rs:74-79 | For any real paths: in a kept folder that is so, at every path with no mask at or above its place in the host's folder, the last mount at or above it in the jail is a bind of the host's folder at its own path (what the policy says is the host's is), exactly when such a mask is at or above everything of the jail's own there whose place has a newline. |
| `JailPolicy.SeenUnmasked` | crates/omabox/src/broker_side.rs:74-79 | At any one such path, what is seen is such a bind, or something of the jail's own whose place has a newline. |
| `JailPolicy.MaskInLines` | crates/omabox/src/broker_side.rs:167-170 | Two mounts, of which the second has a newline in its path: no mask reported is at or above it. |
| `JailPolicy.PlainRootIsTheHosts` | crates/omabox/src/broker_side.rs:74-79 | The same of a path under any root reported, when the folders bound are their own real paths. |
| `JailPolicy.MaskLost` | crates/omabox/src/broker_side.rs:162-166 | Three mounts, with links, of which the third is reported in another host folder only: in the one it is in, no mask is at or above its place. |
| `JailPolicy.UnmaskedIsWhole` | crates/omabox/src/broker_side.rs:137-155 | In a kept folder reported without masks the mount seen everywhere is its own bind, for any real paths. |
| `JailPolicy.Nested` | crates/omabox/src/broker_side.rs:58-65 | Of two folders at or above one path, one is at or above the other, by the text test. |
| `Paths.Lexical` | crates/omabox/src/bwrap.rs:67-87 | The stack of parts written out is the path's plain form. |
| `Paths.BackOut` | crates/omabox/src/bwrap.rs:72-74 | Into a folder and back out of it, wherever in a path, leaves the plain form as it is. |
| `Paths.OverRoot` | crates/omabox/src/bwrap.rs:72-74 | There is nothing over the root. |
| `Paths.StaysThere` | crates/omabox/src/bwrap.rs:70-71 | A "." or an empty piece, wherever in a path, changes nothing. |
| `Paths.PartOn` | crates/omabox/src/bwrap.rs:75 | A name under a path is one part more. |
| `Paths.FromRoot` | crates/omabox/src/bwrap.rs:67-69 | A path without a slash before it is taken from the root. |
| `Paths.PartsRead` | crates/omabox/src/bwrap.rs:67-87 | The parts read every path so: from the root, a name goes on, "." and nothing stay, ".." goes back. |
| `Paths.OneReading` | crates/omabox/src/bwrap.rs:67-87 | And any reading of paths that does is the same, for every path. |
| `Paths.LexKeeps` | crates/omabox/src/bwrap.rs:65-87 | A plain form has the path's parts, and is its own plain form. |
| `Paths.SplitJoin` | crates/omabox/src/bwrap.rs:69-82 | Parts written out are split back to the same parts. |
| `Paths.JoinPrefix` | crates/omabox/src/bwrap.rs:23 | One path's text and a slash starts another's exactly when its parts properly start the other's. |
| `Paths.InByParts` | crates/omabox/src/bwrap.rs:23 | The string test for being in a folder is the part-by-part one, for folders other than /. |
| `Paths.HoldsByParts` | crates/omabox/src/bwrap.rs:48 | The string test for holding a path is the part-by-part one. |
| `Seat.CardByParts` | crates/omabox/src/bwrap.rs:24-29 | The text test for a card node is that of its third part. |
| `Seat.SeatByParts` | crates/omabox/src/bwrap.rs:21-63 | For all paths, the two text checks together refuse exactly what the oracle's part-by-part rule says touches the seat, with no runtime folder or one that is not /. |
| `Seat.RefusedAre` | crates/omabox/src/bwrap.rs:21-63 | What the text checks refuse without a runtime folder, path by path: /, /dev, /run and /dev/dri, at or under /dev/input, /run/seatd.sock and /run/dbus, and at or under /dev/dri/card with digits. |
| `Seat.DetoursSeen` | crates/omabox/src/bwrap.rs:571-586 | A way into a folder and back out of it hides nothing from the checks. |
| `Seat.SlashRuntime` | crates/omabox/src/bwrap.rs:39-41 | With a runtime folder that comes to /, the text check guards no more than the fixed paths, where the oracle has every path touch the seat. |
| `Seat.SeatCheckExact` | crates/omabox/src/bwrap.rs:21-63 | The two agree on all paths exactly when the runtime folder is empty or does not come to /. |
| `Seat.InsideUntouched` | crates/omabox/src/bwrap.rs:88-92 | What is in a folder that touches none of the seat's fixed paths touches none. |
| `Seat.DevIsNoSeats` | crates/omabox/src/bwrap.rs:122-138 | No device a box may have is one of the seat's fixed paths or in or around one. |
| `BindBuilder.NotRefused` | crates/omabox/src/bwrap.rs:88-120 | A box folder that is not refused is plain, is no part of the seat's fixed paths, is not / and does not hold the runtime folder. |
| `BindBuilder.Bwrap.New` | crates/omabox/src/bwrap.rs:196-217 | A builder is made exactly when the box folder is not refused, as written or as it resolves. |
| `BindBuilder.Bwrap.AddWords` | crates/omabox/src/bwrap.rs:223-234 | Plain words are taken exactly when none is a bind word. |
| `BindBuilder.Bwrap.AddHostname` | crates/omabox/src/bwrap.rs:236-240 | The host's name goes in as a value. |
| `BindBuilder.Bwrap.AddSetenv` | crates/omabox/src/bwrap.rs:242-246 | A variable goes in as a value. |
| `BindBuilder.CheckBind` | crates/omabox/src/bwrap.rs:248-277 | A bind passes exactly when its source is in the box's folder or touches no seat path by its parts, and its place touches no fixed one. |
| `BindBuilder.Bwrap.PushBind` | crates/omabox/src/bwrap.rs:279-285 | A bind that passes is added, and one that does not changes nothing. |
| `BindBuilder.Bwrap.SysRo` | crates/omabox/src/bwrap.rs:287-293 | One of the three system folders, read-only at its own path. |
| `BindBuilder.Bwrap.OwnRo` | crates/omabox/src/bwrap.rs:295-308 | A file of omabox's own folders or the box's, read-only. |
| `BindBuilder.Bwrap.UserRo` | crates/omabox/src/bwrap.rs:310-332 | What a user names, read-only, unless either rule refuses it. |
| `BindBuilder.Bwrap.CheckedRo` | crates/omabox/src/bwrap.rs:334-349 | A read-only bind, the source rule waived in the box's folder. |
| `BindBuilder.Bwrap.OwnRw` | crates/omabox/src/bwrap.rs:351-361 | A writable bind only of the declared folders. |
| `BindBuilder.Bwrap.CgroupRw` | crates/omabox/src/bwrap.rs:363-369 | The cgroup token, writable, at its place. |
| `BindBuilder.Bwrap.AddDev` | crates/omabox/src/bwrap.rs:371-374 | A device node at its own path: refused only when the runtime folder is along it and the box's is not above it. |
| `BindBuilder.Bwrap.CardPlaceholder` | crates/omabox/src/bwrap.rs:376-399 | An empty file strictly in the box's folder at a card node's path, and nothing else there. |
| `BindBuilder.Bwrap.AddTmpOverlay` | crates/omabox/src/bwrap.rs:401-411 | A folder overlaid at its own path. |
| `BindBuilder.Bwrap.AddEtcOverlay` | crates/omabox/src/bwrap.rs:413-428 | /etc with the box's own on top, both sources checked. |
| `BindBuilder.Bwrap.EtcFile` | crates/omabox/src/bwrap.rs:430-437 | A file of the box's etc over one of /etc. |
| `BindBuilder.Bwrap.Resolv` | crates/omabox/src/bwrap.rs:439-445 | A resolver file under /run at its own path. |
| `BindBuilder.ReadsBack` | crates/omabox/src/bwrap.rs:1091-1168 | The words of any sequence of calls, with whole plain options, read with bwrap's arities give exactly the mounts asked for, in order, before those of any words after them. |
| `BindBuilder.LogIsSafe` | crates/omabox/src/bwrap.rs:1170-1217 | After any calls, the last of which may end in the program to run, every mount read back keeps the rules: sources off the seat but in the box's folder or the cgroup, places off it but a card held by an empty file of the box's, devices only DevNodes at their own path, writable only the declared folders or the cgroup. |
| `BindBuilder.UpLogIsSafe` | crates/omabox/src/cmd/up_box.rs:1288-1530 | Whatever a box's command is made with, the session's word at its end, bwrap reads back exactly the mounts asked for, and all keep the rules. |
| `BindBuilder.SessionIsCommand` | crates/omabox/src/cmd/up_box.rs:1529 | The session's word is no option, so bwrap's options end there. |
| `BindBuilder.Bwrap.IntoArgs` | crates/omabox/src/bwrap.rs:219-221 | The finished command's words, the program at their end, are read back as those mounts, and all keep the rules; and no source is the seat's. |
| `BindBuilder.NoSeatSource` | crates/omabox/src/bwrap.rs:3-7 | After any calls no source is along one of the seat's fixed paths, and none is at or above the runtime folder, even in the box's folder, because of what that folder may be. |
| `LockFile.OneHolder` | crates/omabox/src/boxes.rs:543-571 | In every interleaving of any number of processes, with inode numbers used again and processes dying anywhere, at most one has returned and neither removed the path nor let go, and the path is its file. |
| `LockFile.KeptOn` | crates/omabox/src/boxes.rs:543-571 | The invariant behind it, kept by every step of a call: no two locks on one file, and the path stays put for a process that compared. |
| `LockFile.NewcomerWaits` | crates/omabox/src/boxes.rs:713-722 | While there is a holder, a newcomer opens its file and its try at the lock fails. |
| `LockFile.CompareNeeded` | crates/omabox/src/boxes.rs:563-569 | Without the comparison a waiter on a removed file holds it beside another holder. |
| `LockFile.FstatNeeded` | crates/omabox/src/boxes.rs:563-569 | If the look at one's own file may fail, no file compares equal to no file, and a process holds a lock on nothing. |
| `LockFile.OnceNeeded` | crates/omabox/src/boxes.rs:540-542 | A holder that removes the path twice can remove the next holder's file. |
| `LockFile.SafeExactly` | crates/omabox/src/boxes.rs:543-571 | Safe in every run exactly when all three are relied on: the comparison, that look, and one removal. |
| `LockFile.GetsThrough` | crates/omabox/src/boxes.rs:545-570 | Left alone, a call returns in nine steps at most, whether its file is gone or not. |
| `Notices.Recorder.Emit` | tools/notices/notices.c:133-152 | A line goes to the file whole, or, past the size, a last one and then none. |
| `Notices.FileIsCut` | tools/notices/notices.c:133-152 | The file has exactly the first lines sent that fit, and when not all, one saying so. |
| `Notices.Recorder.Settle` | tools/notices/notices.c:203-221 | A reply ends a call: its notify line with the answer, or, when that is out, a reply line. |
| `Notices.Recorder.GiveUp` | tools/notices/notices.c:223-229 | A call's notify line goes out without an id, and it is waited for still. |
| `Notices.Recorder.Expire` | tools/notices/notices.c:231-247 | Every slot comes to its fate at that time, calls are given up in order of when they were due, the loop ends, and the time returned is exactly that to the next one due. |
| `Notices.Recorder.FindOldest` | tools/notices/notices.c:372-375 | The slot to make room in: the oldest of the written ones, else the oldest. |
| `Notices.OldestExactly` | tools/notices/notices.c:372-375 | That is: of the written ones when there are any, else of all, the first of the longest there. |
| `Notices.Recorder.OnNotify` | tools/notices/notices.c:348-387 | A call that can be read is written at once or entered, and the state is that of the rule, evictions and failed memory included. |
| `Notices.Recorder.OnReply` | tools/notices/notices.c:419-439 | A reply settles the first call of that sender and serial, and any other changes nothing. |
| `Notices.Recorder.Close` | tools/notices/notices.c:522-523 | At the bus's close every call that was read has exactly one notify line, and at most one reply line, after it; the lines that come at the close are those of the calls that waited, saying so. |
| `Notices.Recorder.Watch` | tools/notices/notices.c:496-525 | Over every sequence of calls, replies, signals and expiries to the close: each readable Notify has one notify line, at most one reply line and that only after the notify line went out without an id; the file has them all, or those that fit. And the log tells the truth: a line's answer is what a reply to its call, by sender and serial, said after it, or that its time was up, that room was made for another call, or that the bus closed; a call's reply is in a line, unless the call had been forgotten or no reply came. Where senders number their calls it is the first reply, and none had come before the others. |
| `Notices.HonestAfter` | tools/notices/notices.c:231-439 | Each event keeps it so: slots are those of calls without a reply, lines are true, and no call is lost. |
| `Notices.HonestClosed` | tools/notices/notices.c:522-523 | And so does the close. |
| `Notices.FairStep` | tools/notices/notices.c:163-229 | Conservation: any step of one line and one slot that balances leaves every call its due. |
| `Notices.AllNotified` | tools/notices/notices.c:522-523 | With nothing waiting, a call has its one notify line, and no more reply lines than it was given up. |
| `Marks.BlendKeeps` | tools/peek/peek.c:687-694 | Blending keeps a pixel premultiplied: no colour above its opacity, which fits a byte, in the whole divisions used. |
| `Marks.BlendExactly` | tools/peek/peek.c:687-694 | Ink of no opacity changes nothing, of full opacity is its colour alone, and in between each channel is its weighted mean with what was there, less than one off. |
| `Marks.AlwaysPremultiplied` | tools/peek/peek.c:687-728 | So does any sequence of drawing. |
| `Marks.Touched` | tools/peek/peek.c:675-679 | What was noted stays noted and so is the box; a full table notes everything. |
| `Marks.Paint` | tools/peek/peek.c:710-714 | A box painted in place is one more drawing operation on every pixel. |
| `Marks.DrawRing` | tools/peek/peek.c:695-709 | A ring inks only its box, cut to the image, which is noted. |
| `Marks.DrawPlate` | tools/peek/peek.c:715-728 | A plate's edge, ground and characters, in order, all inside the box that is noted. |
| `Marks.PlateWithin` | tools/peek/peek.c:715-728 | Every dot of every character is inside the plate. |
| `Marks.PlatePixel` | tools/peek/peek.c:715-728 | Every pixel of a plate: the edge's colour, the dark ground two pixels in, and white exactly where the dot of a character's glyph is set, for that character, row and column. |
| `Marks.NotedOn` | tools/peek/peek.c:672-679 | Drawing in a noted box keeps every pixel that is not blank in the areas. |
| `Marks.Buffer.Clear` | tools/peek/peek.c:800-806 | Clearing only the areas noted leaves the whole buffer blank. |
| `Marks.Buffer.Frame` | tools/peek/peek.c:792-828 | A buffer made anew or cleared has exactly what a full redraw on a blank one gives. |
| `Marks.DamageCovers` | tools/peek/peek.c:830-835 | Every pixel in which the new image differs from the one shown is in the damage, across sizes. |
| `Marks.Marks.Show` | tools/peek/peek.c:767-843 | Over any sequence of frames, sizes, unmappings and releases: the buffer shown equals a full redraw, every pixel that changed on the surface is in the damage sent, and no buffer the compositor has is written. |
| `TreeWalk.Meet` | tools/tree/tree.c:390-395 | The overlap of two rectangles has exactly the points of both. |
| `TreeWalk.ViewIsOverlap` | tools/tree/tree.c:437-443 | What is in view at a node has exactly the points in the window and in the bounds of every node it was come to through. |
| `TreeWalk.Walker.Extents` | tools/tree/tree.c:261-276 | A node's bounds are those it says, from the window or from the last popup on the way to it that says 0,0. |
| `TreeWalk.OffsetIs` | tools/tree/tree.c:252-276 | With a popup that says 0,0 on the way, bounds are moved by the place on the screen of the last one from the window's. |
| `TreeWalk.NoOffset` | tools/tree/tree.c:261-276 | Without one they are as the node says them. |
| `TreeWalk.FrameIs` | tools/tree/tree.c:264-267 | The window's place is that of the trail's first node. |
| `TreeWalk.Walker.Enter` | tools/tree/tree.c:433-451 | Coming to a node, what is in view is cut by exactly its bounds, and what is under it is hidden when it, or one above it but the window, is not showing. |
| `TreeWalk.HidesExactly` | tools/tree/tree.c:450-451 | A node is hidden exactly when it, or a node it was come to through but the window, is not showing. |
| `TreeWalk.Walker.Print` | tools/tree/tree.c:511-520 | A printed node that is named so is found, with its own line after the printed nodes on the way; it goes on the path when there is room. |
| `TreeWalk.PathIs` | tools/tree/tree.c:511-520 | The path has the printed nodes on the way, each after those before it, the first 64 of them. |
| `TreeWalk.Walker.Walk` | tools/tree/tree.c:426-543 | On any graph, shared or cyclic and even one that changes, the walk ends within its budget and leaves offset, clip, hidden flag and path as they were; each node read was come to by a trail of nodes listed one by the other from the window, none keyed twice; and within the budget all a node read lists is read too, or was before. |
| `TreeWalk.Walker.ReadNode` | tools/tree/tree.c:426-432 | A node not read before is, once, and what is under it seen to. |
| `TreeWalk.Walker.Below` | tools/tree/tree.c:507-532 | What a node put on the path comes off again exactly when it went on, past 64 printed nodes too. |
| `TreeWalk.Picking` | tools/tree/tree.c:847-887 | The loops over what was found choose as the rule does. |
| `TreeWalk.PickChosen` | tools/tree/tree.c:871-874 | The hit an index asks for, the index-th of those that can be clicked, or the only one without an index, is clicked in the middle of what is in view of it, with its own line, or is said to be disabled. |
| `TreeWalk.PickExactly` | tools/tree/tree.c:862-890 | When there is no such hit: nothing is named so exactly with no hit; none is in view exactly when none can be clicked, without an index; several are told exactly with more than one, without an index, or fewer than it. |
| `TreeWalk.PickTold` | tools/tree/tree.c:868-878 | Those told are all that can be clicked, in order. |
| `TreeWalk.UsableByNodes` | tools/tree/tree.c:843-861 | A hit can be clicked exactly when its node and all it was come to through but the window are showing, some point of the window is in the bounds of them all, it is an exact match unless none is, and no label unless all that match as well are. |
| `TreeWalk.PointIsInView` | tools/tree/tree.c:871-893 | A point picked is in the window, in the bounds of a node read and in those of every node it was come to through from the window; that node is the one the index asks for, found, enabled and showing, an exact match when there is one, and the line is its own. |
| `TreeWalk.OneInView` | tools/tree/tree.c:873-893 | With one such node in view, its middle is what is picked. |
| `TreeWalk.Walker.Click` | tools/tree/tree.c:995-1000 | The same of a whole run, less the layer's offset: the node clicked is the one the index asks for. |
| `StillWait.RunKept` | tools/still/still.c:790-843 | Every run of the loop, over any frames, failures, unplugged outputs and timings, keeps what is said of rounds and answers. |
| `StillWait.AnswersAreChecked` | tools/still/still.c:818-834 | Satisfied in still or settle mode only with no significant change for the quiet time, and any answer of no change only once every output still watched had a plain copy compared that was asked for in the last round, which began at the deadline then in force. |
| `StillWait.RoundAnswers` | tools/still/still.c:818-822 | With every copy of a round in and nothing significant in it the next turn answers: satisfied exactly when it has been quiet for long enough, and something changed, to settle. |
| `StillWait.RoundBegins` | tools/still/still.c:827-834 | With no frame to take in a round begins exactly when the timeout, the quiet time or the time to begin to settle is over, and then a plain copy is asked for of every output watched; else nothing changes. |
| `StillWait.ChangeAnswers` | tools/still/still.c:804-811 | A wait for a change ends satisfied at the turn in which one comes, of any output watched. |
| `StillWait.RunWaits` | tools/still/still.c:790-817 | Between rounds a frame is always asked for of every output watched, or has come. |
| `StillWait.UnknownIsLost` | tools/still/still.c:797-843 | A run ends unknown only with four frames refused in a row, every output unplugged, or a copy not come in time. |
| `StillWait.RoundEnds` | tools/still/still.c:818-825 | A verification round without a new significant change ends the run. |
| `StillWait.RoundsAreFew` | tools/still/still.c:793-834 | Rounds are at most the significant changes and one more. |
| `StillWait.FreshExactly` | tools/still/still.c:818-834 | With no copy refused in the last round, every copy behind "still" or "settled" was asked for as that round began, and was asked for after the quiet time exactly when nothing significant changed in the round and it began because it was quiet, not because time was up. |
| `StillWait.CopiesAreFresh` | tools/still/still.c:818-834 | After such a round every output still watched had a copy compared that was asked for after the quiet time, refused ones or not. |
| `StillWait.OneIsFresh` | tools/still/still.c:790-834 | With one output, its copy is always asked for after the quiet time when that was over before the time was up. |
| `StillWait.StaleCopy` | tools/still/still.c:818-820 | A run answered "still" in which one output's last copy was asked for before its own change's quiet time was over. |
| `StillWait.StaleAtTimeout` | tools/still/still.c:818-820 | Another, without a change in the round: time was up first, and the copies came late. |
| `StillWait.Watcher.TakeFrame` | tools/still/still.c:796-817 | One output's frame: asked for again, compared, or the run ended. |
| `StillWait.Watcher.Conclude` | tools/still/still.c:818-825 | The end of a round. |
| `StillWait.Watcher.Turn` | tools/still/still.c:793-834 | One turn of the loop is the turn the runs are made of, and keeps the invariant. |
| `StillWait.Watcher.Watch` | tools/still/still.c:790-843 | A whole run of turns and events is the run of the model. |
| `Scales.BackCovers` | tools/still/still.c:194-214 | A box of an output's pixels is covered by the pixels of its layout box, at every scale: a learnt spot catches its own pixels. |
| `Blinkers.BoundIsTight` | tools/still/still.c:372-376 | The box grown over pixels holds them all and has one on each side. |
| `Blinkers.Output.IsCaret` | tools/still/still.c:396-411 | The carets remembered and the answer are those of the rule. |
| `Blinkers.Output.Blinks` | tools/still/still.c:467-494 | The spots remembered and the answer are those of the rule. |
| `Blinkers.Output.Compare` | tools/still/still.c:533-593 | A comparison's answer and what it remembers are those of the rule: rectangles left out, an output's first frame or one that moved (significant exactly in the region watched, with everything forgotten), strict or not, blinkers woken included. |
| `Blinkers.LeftOutNever` | tools/still/still.c:563-577 | What changes wholly in rectangles left out never counts, and nothing is remembered of it. |
| `Blinkers.StrictCounts` | tools/still/still.c:565-593 | Strictly a frame is significant exactly when a changed pixel is not masked by the first rectangle it is in, and nothing is learnt. |
| `Blinkers.LargeCounts` | tools/still/still.c:565-593 | Two changed pixels farther apart than a spot is wide, left out by no rectangle and in no known blinker, make a frame significant, whatever was remembered; and the carets are forgotten. |
| `Blinkers.RingOn` | tools/still/still.c:431-440 | The ring holds exactly the last sixteen looks remembered, in order. |
| `Blinkers.PlaceStep` | tools/still/still.c:431-593 | Every change of one place, blinker or not, counts exactly as the place's own history of looks says, whatever other places apart from it the output remembers. |
| `Blinkers.PartChange` | tools/still/still.c:464-494 | So does a change of part of a place, by the look of the place. |
| `Blinkers.PlaceGrows` | tools/still/still.c:486 | A change that a place is part of is significant, and is the place from then on, its looks begun anew. |
| `Blinkers.FreeSpotIs` | tools/still/still.c:474-478 | A new place goes into the first free spot. |
| `Blinkers.NewSpotIs` | tools/still/still.c:479-482 | With none free it goes into the next that is no blinker, round the spots, and among blinkers only into the next one. |
| `Blinkers.NewLooksCount` | tools/still/still.c:464-494 | A change to a look not among the last sixteen remembered is significant, always; so is, of a place that was new, one to a look it never had. |
| `Blinkers.LoopingStops` | tools/still/still.c:464-494 | A new place that goes round through m looks, from two to sixteen, is significant for exactly its first m + 1 changes, so alternating between two until its third return; through seventeen or more, for ever. |
| `Blinkers.CaretStays` | tools/still/still.c:396-411 | A change inside a remembered caret's box is a caret's, and the box stays remembered. |
| `Blinkers.OtherCaretCounts` | tools/still/still.c:390-411 | With a caret remembered, a change of a caret's shape apart from it and from every place is significant, and remembered. |
| `Blinkers.BlankKnows` | tools/still/still.c:535-538 | On an output with nothing remembered, as at its first frame or once it moved, every place is new. |
| `Blinkers.CaretsDoNotCount` | tools/still/still.c:390-413 | A caret blinking in place, in whole or in part, is never significant, from its first change, whatever blinkers are known elsewhere. |

## Left out

- Merging.Merge: boxes have their corners in order and the gap is not negative, as the listing and its callers give them; `Merging.Regions` asks also that areas are not negative.
- Merging: the listing's text (`parts`), `holes`, and what is printed.
- TreeKeys.KeysApart: roles hold no slash; `TreeKeys.SlashedExactly` has one role that does, and several are not told apart.
- TreeKeys: reading and writing JSON; a node is its depth, role, bounds and key.
- Drawn.DrawnAt: images hold fewer bytes than the largest index.
- Drawn: reading PPM files, the grabs, and what the callers ignore; coordinates do not overflow.
- EditDistance.DidYouMean: `lower` is any function, in place of Unicode lower case; the message's words are left out.
- Utf8.DoText: which characters a layout can type is a predicate, as are its spare keys; key events are left out.
- HeldKeys.Seat.LetGo: nothing else is done to the seat meanwhile; the modifiers' state and the waits for the compositor are left out.
- HeldKeys.KilledLeaves: the seat starts with no key down but those its file names; nothing kills the run that recovers, and no other client is there meanwhile.
- HeldKeys.Run.Keys: the tokens are keycodes of the keymap, which the parsing of a token sees to.
- HeldKeys: sockets, forking, modifiers' states and the time between events; a holder that does not answer.
- BwrapLines.ReadLine: splitting the command line at its NULs; why an --args cannot be read is one reason.
- JailPolicy.MasksAre: a real path begins with a slash, as those the system gives do; asked for only where one place is reported itself.
- JailPolicy: `with_mounts` and the escapes of mountinfo, an easier round trip; who the caller is.
- BindBuilder.LogIsSafe: the plain words are whole options, the last of which may end in the program, as those the program gives are (`UpLogIsSafe`), and the runtime folder does not come to `/`; without that `NoSeatSource` holds still.
- BindBuilder: `refuse_src`, `refuse_dest`, real paths and file kinds are functions given; the links at a sandbox's root; reasons are not told apart past what refuses.
- LockFile: the waits between tries and the deadline's time (a call may give up at any moment); only the path's last part changes.
- Notices.Recorder.Watch: that a reply told is the call's first, and that none had come when a line says so, is said where no two calls of a sender have one serial; of two that wait with one, the first slot gets the reply (`OnReply`).
- Notices: the JSON of a line, of which only its size matters; short writes; the bus. `at + LATE_MS` does not wrap around.
- Marks.Marks.Show: which marks are on show when (fading, gliding, where a layout point is in the window) is given as the shapes to draw; a ring's opacity at a pixel is a function given.
- Marks: pixel buffers are two-dimensional arrays, where the source's are flat.
- TreeWalk: what a node's line says, and which nodes are printed or repeat their parent, are answers of the tree, given once for each visit; `--find`, `--json` and `--all`.
- StillWait: whether a frame is a significant change comes with the frame; the first frames, the region and the reasons' words. A frame refused is asked for again at the turn's own time.
- Blinkers.Output.Compare: which pixels of the region changed is given; a look is a value, in place of its hash.
- Blinkers.LoopingStops: one place changes, all of it each time, beside others apart from it that do not.
