# Verified models of the Tab5 firmware's stateful cores

This project models parts of an ESP32-P4 firmware in Dafny and proves what they promise over every input
and every run. Each module follows one source file; classes have the fields their source objects update,
and loops are loops. Ghost state says what the real state is meant to mean.

- **Document builder** (`DocumentTypes`, `TextFlow`, `RunList`, `InlineStack`, `TableGrid`, `TableList`,
  `FormList`, `DocumentSteps`, `DocumentStory`, `DocumentEffects`, `Document`). `Builder` takes text, start
  tags and end tags in any order and writes a flat, index-linked document. `Valid` is what holds after every
  event: runs tile the text and say the style and link in force when it was written, blocks share out the
  runs, table cells never overlap, forms and selects own exactly their ranges, radio groups and selects are
  settled, inline frames undo exactly what they did. `DocumentSteps` says, as functions of a snapshot of the
  builder, what each event makes of a document or which error it stops with; every method of `Builder` is
  proved to do just that, in place, and `Parse` to do it for a whole stream. `DocumentStory` proves what
  those functions add up to over every stream of events, and shows the inputs on which a promise fails;
  `DocumentEffects` proves of every kind of tag, and of text in every mode, what it does to the document in
  terms of what is in it.
- **Text console** (`Font`, `LineEditor`, `Console`). The cell grid is the state and the screen a view of it,
  kept by partial repaints and block scrolls that may fail; `InSync` says the view equals a full redraw. The
  cells refine a pair of string and cursor. Rows and columns are parameters.
- **Framebuffer, cache and DMA** (`Coherence`, `Raster`, `Framebuffer`). A write-back cache whose lines may be
  loaded and evicted at any moment, a rotated address map, DMA engines that may refuse or stop anywhere, and
  the line, circle and square-root loops with exact arithmetic.
- **HTTP cache records and dates** (`Decimal`, `CacheRecord`, `HttpDate`). A line format and its reader, and
  the civil-date closed form behind the IMF-fixdate of section 5.6.7 of RFC 9110. A header value is bytes, and a
  date reader accepts it, refuses it or stops the program.
- **Smaller cores**: the SD card's block transfers and descriptor chains (`SdBlocks`), the key ring, key
  source rotation and touch phases (`Input`), the split 64-bit clock (`Tick`).

Hardware appears as nondeterminism: a cache operation, a DMA engine, a card or a block scroll may succeed or
fail, and interrupts may run at any listed point. `Url::resolve` is an arbitrary function.

Where the code does less than its comments or callers might expect, the model states the exact condition:

- A `</title>` that ends no title drops the run that is open (browser/src/document.rs:1726-1731).
  `LosesTextExactlyToStrays` says which pages lose text, `RunsGiveBackTheText` that the runs give the text back
  if and only if none was lost, and `StrayTitleLosesText` shows one that does.
- An `<a href>` at the full nesting depth sets a link no frame remembers (browser/src/document.rs:2189-2201).
  It spoils exactly the open frames above the topmost one that sets a link, and closing an element restores
  the link from before it if and only if its frame is not spoiled: `NewLinkSpoils`, `PopInline`.
  `LinkOutlivesItsElement` shows one.
- Headings, `pre`, lists, rules and titles inside a table cell close the cell's block early, and its runs are
  then filed twice; text between `<table>` and the first cell loses the runs it had closed
  (browser/src/document.rs:1576-1607, 2013-2041). `misfiled` counts both (`FileAgain`, `HouseCell`), and the
  blocks share out the runs if and only if it is zero. `MisfilesExactlyAtCells` says at which tags of a page it
  grows and by how much. `HeadingInACell` and `CellOverText` show a page of each kind.
- An empty output line that does not scroll leaves a visible cursor's old block on screen
  (src/console.rs:295-325). `WriteOutputLine` says so in both directions.
- `fill` honours the vertical clip on its DMA path and no clip on its CPU path (src/framebuffer.rs:141-166).
  `Fill` says what each does, and `FillPathsAgree` when the two agree.
- The comment at src/input.rs:391-393 promises that no source can hold off the others. With events waiting
  in the ring every other poll one can: `PendingKeysStarveASource`. `ServedExactlyWhenTheRingRests` says when a
  source is served: exactly when enough polls in a row find the ring empty.
- The comments at src/tick.rs:161-163 rely on the reader noticing a carry. It would not notice one done by
  halves: `ReadBetweenHalves`. The interrupt has to be atomic to the reader.
- A date whose month is not written in ASCII can stop the program: it slices the text at bytes 8 and 11 without
  asking whether a character begins there (browser/src/cache.rs:300-318). `StopsExactly` says at which header
  values it stops, and `SplitMonthStops` shows one.
- On a card addressed in bytes, block numbers of 2^23 and more wrap to other blocks
  (src/sdmmc.rs:892-896): `WireReachesTheBlock`, and `Addressable` in `ReadBlocks` and `WriteBlocks`.
- A record whose security code is above 3 or whose key is empty encodes to a file the reader refuses:
  `RoundTrip`.

## Model

| member | source | states |
|---|---|---|
| Document.Parse | browser/src/document.rs:565-585 | A whole page is exactly what its events make it, or stops with exactly the error they call for; it is well formed and complete; its runs give the text back if and only if no event drops any, and its blocks share out its runs if and only if no event, nor the end of the page, misfiles any |
| Document.TextInPieces | browser/src/document.rs:832-857 | On two builders in one state, `push_text(a + b)` and `push_text(a); push_text(b)` leave one state or fail with one error, in every mode |
| Document.Builder.constructor | browser/src/document.rs:720-762 | A new builder is blank, and well formed |
| Document.Builder.Feed | browser/src/document.rs:2257-2269 | Every event in every state leaves exactly the document it should or stops with exactly the error it should, and the document stays well formed |
| Document.Builder.Finish | browser/src/document.rs:778-786 | The end of the page closes whatever is open, exactly as each open thing is closed by its own tag, and nothing stays open |
| Document.Builder.RunsGiveBackTheText | browser/src/document.rs:1233-1264 | The finished runs are contiguous, cover the text and give back the style and link in force when each byte was appended, if and only if no text was lost |
| Document.Builder.RunsAreWellMade | browser/src/document.rs:1299-1321 | Runs are nonempty and in order, their links exist, and outside `pre` a space follows no space or line break and precedes no line break |
| Document.Builder.BlocksShareOutTheRuns | browser/src/document.rs:1325-1357 | On any finished page the blocks' slices, one after the other, are the runs, if and only if no run was misfiled |
| Document.Builder.NoSquareTwice | browser/src/document.rs:1984-2001 | Expanding all spans, no two cells of a table cover one square, and every cell stays inside the 32 columns |
| Document.Builder.OpenCellStandsApart | browser/src/document.rs:1999-2012 | The cell being filled covers no square that a cell of its table covers, and none outside the 32 columns |
| Document.Builder.FinishedTablesTell | browser/src/document.rs:2067-2082 | A finished table's ranges hold exactly its cells and rows, its rows are numbered from 0, and every cell lies inside its row and column counts |
| Document.Builder.FormsHoldTheirControls | browser/src/document.rs:1906-1912 | Each form's range holds exactly the controls that carry its index |
| Document.Builder.RadioGroupsAreSettled | browser/src/document.rs:1855-1865 | A control is checked exactly when its tag asked for it and no later member of its radio group did; so at most one per form and name |
| Document.Builder.SelectsHoldTheirOptions | browser/src/document.rs:932-946 | Each select's range holds exactly its own options |
| Document.Builder.ClosedSelectsShowOne | browser/src/document.rs:970-997 | A closed single select has at most one selected option, and one exactly when one was marked or is enabled |
| Document.Builder.SelectsShowThis | browser/src/document.rs:970-997 | Exactly these options are selected: in a closed single select the last one marked, or with none marked the first enabled one; elsewhere those marked |
| Document.Builder.NoElementNoStyle | browser/src/document.rs:2204-2224 | On an empty inline stack no style is in force, and no link, if and only if none was set adrift |
| Document.Builder.PushText | browser/src/document.rs:832-857 | Text goes to the open option, textarea or button, else to title or body, where what is added is what its characters call for, in the style and link in force |
| Document.Builder.PushBodyText | browser/src/document.rs:842-856 | The body or title becomes exactly the text so far with the characters poured in; an error exactly when that exceeds the limit |
| Document.Builder.PushBodyCharacter | browser/src/document.rs:843-854 | One character collapses or is kept, by mode |
| Document.Builder.PushPreformatted | browser/src/document.rs:1219-1231 | In `pre` a carriage return vanishes, a tab is a space, all else is kept |
| Document.Builder.FlushPendingSpace | browser/src/document.rs:1208-1217 | An owed space is written unless nothing stands before it |
| Document.Builder.PushCharacter | browser/src/document.rs:1233-1264 | A character goes to the title, or to the body's open run, opening block and run when needed |
| Document.Builder.PushTitle | browser/src/document.rs:1234-1247 | Titles take characters up to the text limit and touch no run |
| Document.Builder.OpenBlockIfNeeded | browser/src/document.rs:1289-1298 | Opens a paragraph exactly when no block is open and no title is |
| Document.Builder.OpenRunIfNeeded | browser/src/document.rs:1248-1252 | Opens a run at the end of the text unless one is open |
| Document.Builder.AppendToRun | browser/src/document.rs:1253-1263 | The text grows by one character marked with the style and link in force, and every run stays true |
| Document.Builder.PushBreak | browser/src/document.rs:1267-1285 | A break is one newline, cancels an owed space, and does nothing in a title |
| Document.Builder.CloseRun | browser/src/document.rs:1301-1321 | The open run becomes a run from its start to the end of the text, unless it is empty |
| Document.Builder.CloseBlock | browser/src/document.rs:1325-1357 | The open block is committed with exactly the runs and controls since it opened, unless it holds none and is neither a rule nor a control's |
| Document.Builder.StartBlock | browser/src/document.rs:1360-1368 | What was open is closed, and a block of the given kind is open |
| Document.Builder.EndRunHere | browser/src/document.rs:1383-1384 | The owed space is paid in the old style and the run ends |
| Document.Builder.SetStyle | browser/src/document.rs:1379-1388 | A change of style or link takes effect at exactly this point of the text, and nothing written before changes |
| Document.Builder.PushInline | browser/src/document.rs:2200-2225 | The style gains the element's bit and a frame remembers what was in force; at full depth nothing changes |
| Document.Builder.PopInline | browser/src/document.rs:2233-2254 | Closing any open name, however crossed, restores the style from before its frame was pushed, and the link if and only if no frameless link spoiled that frame |
| Document.Builder.PopFrames | browser/src/document.rs:2242-2252 | Taking frames off one by one ends at the style from before the lowest, and at its link if and only if it is not spoiled |
| Document.Builder.StartLink | browser/src/document.rs:2164-2192 | Text links to the resolved target when there is room for it; only at full depth under an element that is not a link is a link set that no frame will undo |
| Document.Builder.BeginForm | browser/src/document.rs:1798-1821 | A form starts at the next control, unless one is open |
| Document.Builder.UncheckRivals | browser/src/document.rs:1855-1865 | Checking a radio button unchecks exactly its group |
| Document.Builder.AppendControl | browser/src/document.rs:1882-1909 | A control joins the list and the open form, and its rivals yield |
| Document.Builder.PlaceControl | browser/src/document.rs:1871-1881 | A textarea outside tables gets a block of its own; any other control stands between runs |
| Document.Builder.PushControl | browser/src/document.rs:1823-1913 | The control added is exactly the one the tag describes, at this place in the text |
| Document.Builder.Caption | browser/src/document.rs:899-911 | Option and button text collapses, is refused when too long, and comes out the same however it is cut |
| Document.Builder.PushOptionText | browser/src/document.rs:889-913 | Text in a select goes to its open option or nowhere |
| Document.Builder.PushButtonText | browser/src/document.rs:1008-1031 | Text in a button grows its label, unless inside a control nested in it |
| Document.Builder.PushTextareaText | browser/src/document.rs:862-885 | A textarea keeps its text with every line end as LF, without its first, and nothing after the first character that does not fit |
| Document.Builder.EndTextarea | browser/src/document.rs:999-1006 | The text becomes the control's initial value and nothing else changes |
| Document.Builder.EndButton | browser/src/document.rs:1757-1763 | The text becomes the button's label and nothing else changes |
| Document.Builder.BeginOption | browser/src/document.rs:915-954 | The option before is filed and a new one joins the open select, disabled with its group |
| Document.Builder.EndOption | browser/src/document.rs:956-968 | An option shows its text, which is its value when it names none |
| Document.Builder.EndSelect | browser/src/document.rs:973-997 | A select is closed with its choice settled |
| Document.Builder.CloseSelect | browser/src/document.rs:975-984 | Unless several are allowed, exactly the select's own options are settled |
| Document.Builder.SettleOptions | browser/src/document.rs:985-995 | The last option marked, or with none the first enabled one, is selected and no other in the range |
| Document.Builder.BeginLabel | browser/src/document.rs:1765-1777 | A label starts here, after the one before was filed |
| Document.Builder.EndLabel | browser/src/document.rs:1779-1796 | A label covers the text since it opened |
| Document.Builder.BeginTable | browser/src/document.rs:1915-1943 | A table starts behind all cells and rows there are |
| Document.Builder.AgeColumns | browser/src/document.rs:1952-1954 | The column counters each go down by one, not below zero |
| Document.Builder.BeginTableRow | browser/src/document.rs:1945-1968 | The open cell is filed, cells hang one row less, and the row is recorded under the next number |
| Document.Builder.BeginTableCell | browser/src/document.rs:1970-2019 | A cell opens in the least column where its clamped span fits, in a row begun for it if need be |
| Document.Builder.PlaceCell | browser/src/document.rs:1980-2012 | Fails exactly when no column has room |
| Document.Builder.HangCell | browser/src/document.rs:1999-2001 | The counters under the cell take its row span, the others stay |
| Document.Builder.EndTableCell | browser/src/document.rs:2021-2065 | The cell is filed with the text, images and controls since it opened, and a block for its runs |
| Document.Builder.FileAgain | browser/src/document.rs:2027-2041 | With no block open at the cell's end its block takes the runs the last block took: they are filed twice |
| Document.Builder.FileBlock | browser/src/document.rs:1340-1357 | Otherwise a block takes exactly the runs not filed yet |
| Document.Builder.HouseCell | browser/src/document.rs:2013-2018 | A cell that opens over an open block passes over the runs that block had: they are filed nowhere |
| Document.Builder.EndTable | browser/src/document.rs:2067-2082 | The last cell is filed and the table's record completed |
| Document.Builder.BeginTitle | browser/src/document.rs:1576-1581 | Closes the open block and sends text to the title |
| Document.Builder.EndTitle | browser/src/document.rs:1726-1731 | The title ends; a run that is open is dropped, and exactly its bytes are counted as lost |
| Document.Builder.BeginPre | browser/src/document.rs:1588-1591 | Opens a block in which text is kept as written |
| Document.Builder.EndPre | browser/src/document.rs:1732-1735 | Text collapses again, and the block is closed |
| Document.Builder.HorizontalRule | browser/src/document.rs:1583-1586 | A rule is a block of its own without runs |
| Document.Builder.BeginList | browser/src/document.rs:1592-1603 | Closes the block and nests one list deeper, up to the limit |
| Document.Builder.EndList | browser/src/document.rs:1736-1739 | Closes the block and the innermost list |
| Document.Builder.ListMarker | browser/src/document.rs:2149-2162 | An item has its list's bullet, or its next number, which counts up in that list only |
| Document.Builder.BeginItem | browser/src/document.rs:1604-1607 | An item is a block with its depth and marker |
| Document.Builder.PushImage | browser/src/document.rs:2090-2147 | An image is its bracketed text, a space owed before and after, in a block of its own outside tables; the first 64 are kept with where their text begins and ends |
| Document.Builder.StartInSelect | browser/src/document.rs:1397-1412 | Inside a select only options, groups and select tags count |
| Document.Builder.EndInSelect | browser/src/document.rs:1657-1670 | and only their end tags, and `</form>` |
| Document.Builder.StartInButton | browser/src/document.rs:1068-1088 | Controls nested in a button are counted, not built |
| Document.Builder.EndInButton | browser/src/document.rs:1117-1139 | and counted back; the button ends with its own tag or its form's |
| Document.Builder.StartNested | browser/src/document.rs:1413-1444 | A table inside a cell becomes lines of the cell's text |
| Document.Builder.StartInTable | browser/src/document.rs:1445-1483 | Rows, cells and groups belong to the open table; other blocks in a cell are line breaks |
| Document.Builder.EndInTable | browser/src/document.rs:1674-1713 | and their end tags file the open cell or the table |
| Document.Builder.StartContent | browser/src/document.rs:1574-1624 | Every other start tag opens, closes or marks exactly what its element stands for |
| Document.Builder.EndContent | browser/src/document.rs:1726-1752 | and so does every other end tag |
| DocumentStory.HappenedGrows | browser/src/document.rs:1390-1763 | Whatever the event and the state, nothing in the document is taken back; new text bears the style and link in force when the event came; title, select, textarea, button and `pre` modes and the open lists follow the tags alone; only a `</title>` that ends no title loses text; only a tag that ends or opens a cell misfiles runs, exactly those of a block closed before its cell or open before it |
| DocumentStory.NothingIsTakenBack | browser/src/document.rs:565-585 | Whatever a page held after any of its events it holds at the end, but for totals, values and choices still to be filled in |
| DocumentStory.TextIsMarkedAsWritten | browser/src/document.rs:1233-1264 | Every byte of a page's text is marked with the style and link in force when the event came that wrote it |
| DocumentStory.AfterFollows | browser/src/document.rs:1390-1412 | After any stream the open title, select, textarea, button and lists, and whether text is kept as written, are what the tags alone say |
| DocumentStory.LosesTextExactlyToStrays | browser/src/document.rs:1726-1731 | A page loses text if and only if some `</title>` that ends no title comes while a run is open with text in it |
| DocumentStory.NoStrayNothingLost | browser/src/document.rs:1726-1731 | If every `</title>` outside selects and buttons ends a title, nothing is lost |
| DocumentStory.StrayTitleLosesText | browser/src/document.rs:1726-1731 | `x</title>` leaves its letter in the text and in no run |
| DocumentStory.NoTableNothingMisfiled | browser/src/document.rs:1325-1357 | A page without a `<table>` misfiles no run |
| DocumentStory.MisfilesExactlyAtCells | browser/src/document.rs:2013-2041 | The runs a page's blocks hold twice or not at all are the sum of what its tags misfile; there are none if and only if no tag, nor the end of the page, ends a cell whose block is closed or opens a cell in an open block, with runs in that block |
| DocumentStory.HeadingInACell | browser/src/document.rs:1588-1611 | `<table><td><h1>x</h1></td>` files its one run twice |
| DocumentStory.CellOverText | browser/src/document.rs:2013-2018 | `<table>x<b><td>` leaves its one run in no block |
| DocumentStory.ListCountsItems | browser/src/document.rs:2149-2155 | From the tag that opens it until one closes it, an ordered list counts its own items and nothing else, whatever lists are nested in it, and any other list counts nothing |
| DocumentStory.ItemsAreMarked | browser/src/document.rs:2149-2162 | The items of an ordered list are numbered 1, 2, 3 and so on as far as 32 bits go, those of another list are bulleted; each has the depth of its list |
| DocumentStory.ItemOpensItem | browser/src/document.rs:2149-2162 | An item has its innermost list's marker, and a bullet outside all lists |
| DocumentStory.ImageSaysItsText | browser/src/document.rs:2090-2147 | Where no control and no title takes the text, an image that is kept covers exactly its words in square brackets, and before them nothing is new but the space that parts it from a line it stands in |
| DocumentStory.LinkOutlivesItsElement | browser/src/document.rs:2189-2201 | 32 elements deep, a link set in the innermost stays in force when it is closed, and every frame is spoiled |
| DocumentStory.TextedInPieces | browser/src/document.rs:832-857 | Text in two pieces does what it does in one, errors included, in body, title, `pre`, textarea, option and button |
| DocumentStory.CutsMakeNoDifference | browser/src/document.rs:812-817 | A page is the same, errors included, wherever its text was cut into pieces |
| DocumentEffects.PreElementKeepsText | browser/src/document.rs:1588-1591 | On any page where text goes to the body, `<pre>` and the text behind it leave that text as it is written, but for carriage returns and with spaces for tabs, in a block of kind preformatted, the block before it ended |
| DocumentEffects.PreformattedTextIsKept | browser/src/document.rs:1219-1231 | After any stream between whose tags a `<pre>` is open, text is kept as it is written, but for carriage returns and with spaces for tabs |
| DocumentEffects.RunningTextIsCollapsed | browser/src/document.rs:842-855 | After any other stream text becomes its words with single spaces between them, parted from what was there by a space if whitespace parts them |
| DocumentEffects.TitleTextIsTheTitles | browser/src/document.rs:1233-1247 | In a title text makes the title grow in the same way, and nothing else |
| DocumentEffects.BlockTagTurns | browser/src/document.rs:1588-1616 | A tag of a block, `<p>` among them, ends the block before it with the runs and controls since it opened, if it has any; `<pre>`, headings and items open one of their own kind |
| DocumentEffects.RuleTagDraws | browser/src/document.rs:1583-1586 | A rule stands between the block before it and the next |
| DocumentEffects.BlockTagInCell | browser/src/document.rs:1474-1481 | In a cell a tag of a block, or of a form, is the end of a line and its end tag is nothing |
| DocumentEffects.BreakTagBreaks | browser/src/document.rs:1267-1285 | `<br>` ends a line, except in a title |
| DocumentEffects.BlockEndTagTurns | browser/src/document.rs:1732-1751 | An end tag of a block ends what is open, and `</pre>` the keeping of text as written |
| DocumentEffects.InlineTagStyles | browser/src/document.rs:2283-2290 | `strong` and `b` make text bold, `em` and `i` italic, `code`, `kbd`, `samp`, `tt` and `var` code, until the depth limit |
| DocumentEffects.AnchorTagLinks | browser/src/document.rs:2164-2192 | What follows links to where the reference resolves, exactly when it does and there is room for it |
| DocumentEffects.FormTagOpens | browser/src/document.rs:1798-1821 | Outside cells a form starts at the next control, going where its action resolves, unless one is open |
| DocumentEffects.ControlTagAdds | browser/src/document.rs:1823-1913 | The tag of a control adds exactly the control it describes, its kind told by the tag and its type, of the open form, at this place in the text, and changes no other but for what it has checked |
| DocumentEffects.ControlTagPlaces | browser/src/document.rs:1871-1881 | A textarea outside tables is a block of its own; any other control stands between two runs of the open block, behind the space that is owed |
| DocumentEffects.SelectTagOpens | browser/src/document.rs:1537-1554 | A select opens with its control, no option and no group |
| DocumentEffects.OptionElementShows | browser/src/document.rs:889-968 | `<option>`, a text and `</option>` make an option that shows the words of the text, and whose value is the one named or else what it shows |
| DocumentEffects.OptionGroupTagDisables | browser/src/document.rs:1401-1407 | A disabled group disables the options in it, up to its end tag |
| DocumentEffects.ButtonElementShows | browser/src/document.rs:1008-1031 | `<button>`, a text and `</button>` make a button labelled with the words of the text, and leave the page's text alone |
| DocumentEffects.TextareaElementHolds | browser/src/document.rs:862-885 | `<textarea>`, a text and `</textarea>` make a control that holds the text with LF line ends and without its first, or a beginning of it when it is too long, and says so |
| DocumentEffects.FormEndTagCloses | browser/src/document.rs:1721-1725 | A form's end tag closes its button, the form and the block |
| DocumentEffects.ImageHasItsBlock | browser/src/document.rs:2090-2147 | Outside tables an image is one run in a paragraph of its own, and a space is owed behind it |
| DocumentEffects.LabelTagStarts | browser/src/document.rs:1765-1777 | A label begins behind the text that was there, a space that was owed included |
| DocumentEffects.LabelEndTagEnds | browser/src/document.rs:1779-1796 | and ends behind the text that is there now |
| DocumentEffects.TableTagOpens | browser/src/document.rs:1915-1943 | A table ends the block before it and starts empty, behind all rows and cells there are |
| DocumentEffects.GroupTagGroups | browser/src/document.rs:1455-1465 | Groups are of the head, the body or the foot |
| DocumentEffects.RowTagNumbers | browser/src/document.rs:1945-1968 | A row has the next number and the open group, and what hangs into it hangs one row less |
| DocumentEffects.CellTagOpens | browser/src/document.rs:1970-2019 | A cell begins where the text ends, in the least column where its span fits, cut at the right edge, and hangs over its columns for its row span |
| DocumentEffects.CellEndTagFiles | browser/src/document.rs:2021-2065 | A cell ends with the text, images and controls since it began and a block of its runs |
| DocumentEffects.TableEndTagFinishes | browser/src/document.rs:2067-2082 | A table ends with the cells and rows since it began |
| DocumentEffects.NestedTagsAreText | browser/src/document.rs:1413-1451 | A table in a cell is lines of the cell's text, with a bar between its cells |
| DocumentEffects.NestedEndTagsAreText | browser/src/document.rs:1675-1688 | and so are its end tags |
| DocumentEffects.PageEndEndsAll | browser/src/document.rs:778-788 | At the end of the page nothing is left open, and what was is kept as its own end tag would keep it |
| DocumentSteps.WroteTwice | browser/src/document.rs:832-857 | Growing to one text and then to a longer one is growing to the longer one |
| TextFlow.CutsDoNotMatter | browser/src/document.rs:812-817 | Whatever is done character by character, it makes no difference where the text was cut |
| TextFlow.RunningTextIsItsWords | browser/src/document.rs:842-855 | From the start of a block, running text is its words separated by single spaces |
| TextFlow.RunningTextAddsItsWords | browser/src/document.rs:842-855 | Wherever running text comes it adds its words with single spaces between them, and a space before them exactly if a word stands there and whitespace parts them |
| TextFlow.PreKeepsText | browser/src/document.rs:1219-1231 | In `pre` what is added is the text without carriage returns and with spaces for tabs |
| TextFlow.CaptionIsItsWords | browser/src/document.rs:899-911 | The text of an option or a button is its words with single spaces between them, for any of Unicode's whitespace |
| TextFlow.TextareaKeeps | browser/src/document.rs:862-885 | A textarea holds its text with every line end as LF and without the first, or a beginning of it exactly when that is over the limit |
| TextFlow.PourShift | browser/src/document.rs:842-855 | What is kept of a text does not depend on what stands before it, once a word may follow |
| TextFlow.CollapsedGrows | browser/src/document.rs:1198-1217 | Appending a character keeps text free of doubled spaces unless it is a space or break in the wrong place |
| RunList.ExpandsExactlyWhenNothingLost | browser/src/document.rs:1299-1321 | Runs tile the text and expand to what was in force over it exactly when no byte is missing |
| RunList.TiledExpands | browser/src/document.rs:1299-1321 | Up to the last run, what the runs leave out is exactly the gaps between them |
| RunList.SlicesPartitionRuns | browser/src/document.rs:1325-1357 | The blocks' slices are the runs, each once and in order, exactly when none was misfiled |
| RunList.SliceFiledTwice | browser/src/document.rs:2027-2041 | Runs filed a second time show: their numbers no longer ascend |
| RunList.RunsPassedOver | browser/src/document.rs:2013-2018 | Runs passed over show: there are too few |
| RunList.TiledApart | browser/src/document.rs:1299-1321 | No run comes twice: each begins where the one before it ended, or later |
| InlineStack.PushFrame | browser/src/document.rs:2208-2222 | A pushed frame adds its bits only and disturbs no other frame's account |
| InlineStack.StackedBelow | browser/src/document.rs:2242-2252 | Every frame still knows the style and link from before it, and removing its bits restores that style |
| InlineStack.PushKeepsAccounts | browser/src/document.rs:2208-2218 | A new frame is not spoiled and spoils no other |
| InlineStack.NewLinkSpoils | browser/src/document.rs:2189-2191 | A link set without a frame spoils exactly the frames above the topmost one that sets a link |
| InlineStack.PopKeepsAccounts | browser/src/document.rs:2242-2252 | What is left after closing some elements is what closing all of them at once would pass through |
| TableGrid.Place | browser/src/document.rs:1984-1998 | Finds the least column where the clamped span fits, or none exactly when there is none |
| TableGrid.Spot | browser/src/document.rs:1984-1998 | That place, as a function |
| TableGrid.HangTracks | browser/src/document.rs:1999-2001 | Placed where it fits, a cell overlaps nothing, and the counters go on telling which squares are taken |
| TableGrid.NextRowTracks | browser/src/document.rs:1952-1954 | The counters stay true when a row is begun |
| TableList.CellCloses | browser/src/document.rs:2046-2062 | Filing the cell keeps every table's cells apart and every finished table's ranges exact |
| TableList.TableCloses | browser/src/document.rs:2067-2082 | The record of the closing table is right |
| FormList.NewcomerSettles | browser/src/document.rs:1855-1909 | A new control keeps forms, radio groups and options in order |
| FormList.AtMostOneChecked | browser/src/document.rs:1855-1865 | Two radio buttons of one form and name are never both checked |
| FormList.SelectSettles | browser/src/document.rs:973-997 | Closing a select settles its own options and disturbs nobody else's |
| FormList.ClosedSelectShowsOne | browser/src/document.rs:970-997 | One option at most is selected, and one if any was marked or can be chosen |
| FormList.ClosedSelectShowsThis | browser/src/document.rs:970-997 | That one: the last marked, or with none marked the first enabled |
| FormList.ChosenIsRight | browser/src/document.rs:986-995 | The chosen option is the last one marked, or with none marked the first enabled one |
| Console.Console.Session | src/console.rs:141-660 | From `clear` on, any sequence of prompts, keys, blinks, output lines and reports that respects who owns the row makes of the console just what the conversation says: history, line, cursor, submission; and every cell of the display shows the newest rows of the history, then the prompt and the line, then nothing, and the cursor |
| Console.Console.constructor | src/console.rs:117-133 | A new console holds a prompt and an empty line |
| Console.Console.Clear | src/console.rs:141-149 | Blanks the grid and makes the view match it whatever was on screen |
| Console.Console.TakeSubmission | src/console.rs:152-154 | Hands the submitted line over once |
| Console.Console.BlinkCursor | src/console.rs:158-161 | Blinking repaints enough |
| Console.Console.ShowCursor | src/console.rs:539-544 | The cursor is visible and the view still matches |
| Console.Console.DrawSpan | src/console.rs:571-587 | Exactly the span is repainted |
| Console.Console.DrawCursor | src/console.rs:547-549 | Exactly the cursor's cell is repainted |
| Console.Console.DrawEdit | src/console.rs:558-562 | What an edit touched is repainted, and nothing else is disturbed |
| Console.Console.Redraw | src/console.rs:629-660 | The whole view matches the grid |
| Console.Console.ScrollScreen | src/console.rs:513-525 | The view matches the moved grid whether or not the block copy worked |
| Console.Console.AdvanceRow | src/console.rs:477-490 | Moves to a blank row, scrolling the grid exactly at the bottom |
| Console.Console.WritePrompt | src/console.rs:253-256 | On a blank row, leaves a prompt with an empty line |
| Console.Console.WriteCells | src/console.rs:290-306 | The rows added are the line wrapped at the column count, however many scroll off |
| Console.Console.WriteOutputLine | src/console.rs:287-328 | The view keeps up with the line if and only if it is not empty, or the cursor is hidden, or the row scrolled |
| Console.Console.Put | src/console.rs:364-377 | Inserts at the cursor unless the row is full |
| Console.Console.InsertAtCursor | src/console.rs:366-373 | Makes room cell by cell and fills it |
| Console.Console.RemoveAtCursor | src/console.rs:403-409 | Closes the gap cell by cell and blanks the last |
| Console.Console.EraseBackward | src/console.rs:381-390 | Removes before the cursor, if anything stands there |
| Console.Console.DeleteForward | src/console.rs:392-399 | Removes under the cursor, if anything stands there |
| Console.Console.ClearInputLine | src/console.rs:411-423 | Empties the line |
| Console.Console.MoveCursor | src/console.rs:425-435 | Moves within the line |
| Console.Console.ReadLine | src/console.rs:448-456 | Copies exactly the line out of the cells |
| Console.Console.LeaveRow | src/console.rs:458-469 | Moves off the edited row and erases its cursor block |
| Console.Console.Submit | src/console.rs:442-470 | Hands over exactly the edited line and leaves a fresh blank row |
| Console.Console.Push | src/console.rs:331-354 | A character does to the cells what it does to the pair of string and cursor; Enter submits, LF after CR does not submit again |
| Console.Console.PushKey | src/console.rs:168-195 | Every key changes the text on either side of the cursor, and nothing else, as its name says; Home and End go to the ends of the line, Escape empties it, Tab pads to the next multiple of four, and Enter hands over exactly the line |
| Console.Console.TakeInputLine | src/console.rs:206-226 | Lifts line and cursor off the row and leaves it blank |
| Console.Console.RestoreInputLine | src/console.rs:234-249 | Puts back exactly the line and cursor |
| Console.Console.Report | src/app/automount.rs:528-569 | A report written over a command being typed brings the same line and cursor back behind its last line |
| Console.WrapNext | src/console.rs:477-490 | One more character completes its row or does not, and the wrapped rows agree |
| Console.WrapHoldsTheLine | src/console.rs:290-306 | Wrapped rows hold the line character by character with blanks behind it; a line that fills its last row has one more |
| LineEditor.EditsUndoInsert | src/console.rs:364-409 | Backspace, and Delete after a step left, undo a typed character unless the full line refused it |
| LineEditor.PressDoes | src/console.rs:168-195 | Every key does to the text left and right of the cursor what its name says, within the capacity |
| LineEditor.ArrowsUndo | src/console.rs:176-179 | Away from the ends of the line each arrow undoes the other |
| Font.TypedCharacterSurvives | font/src/console.rs:47-66 | A cell gives back the character typed into it exactly when it was printable ASCII |
| Font.GlyphsAreInOrder | font/src/console.rs:47-54 | Visible ASCII takes the ids 2 to 95, in order |
| Framebuffer.RotationIsABijection | src/framebuffer.rs:1329-1331 | The clockwise rotation is a bijection between screen and buffer |
| Framebuffer.QuarterTurn | src/framebuffer.rs:1329-1331 | It turns the screen clockwise by a quarter: the top left corner starts the panel's last row, a step right is one panel row up, a step down is one pixel on in its row |
| Framebuffer.Framebuffer.SetVerticalClip | src/framebuffer.rs:108-113 | Clamps the clip to the screen and hands the old one back |
| Framebuffer.Framebuffer.FlushRect | src/framebuffer.rs:1101-1122 | Done exactly when the rectangle starts on screen and no cache operation was refused; then its pixels are fresh and not in the cache |
| Framebuffer.Framebuffer.FillRectWithCpu | src/framebuffer.rs:254-283 | Exactly the rectangle changes |
| Framebuffer.Framebuffer.PpaFillRectRaw | src/framebuffer.rs:1018-1038 | The engine may refuse or stop anywhere: nothing outside changes, and success is reported exactly when it did not and means a filled rectangle |
| Framebuffer.Framebuffer.PpaFillRect | src/framebuffer.rs:962-988 | The same through both cache passes, clipped vertically: it fills exactly when there is something to fill, the first pass is accepted and the engine does not stop; the second may be refused after the engine has run |
| Framebuffer.Framebuffer.FillRect | src/framebuffer.rs:214-229 | Unless the second cache pass of a fill by DMA is refused, the picture is the old one with the clipped rectangle in the color, whether DMA succeeded, failed part-way, was skipped or was never started because the first pass was refused; on the panel that is the rectangle's rows from bottom to top and columns from left to right, turned |
| Framebuffer.Framebuffer.Fill | src/framebuffer.rs:141-166 | On the engine's path the rows of the vertical clip take the color, on the CPU's the whole screen; all of it shows the color unless the engine ran and something outside the clip did not have it already |
| Framebuffer.FillPathsAgree | src/framebuffer.rs:141-166 | The two paths agree on every picture exactly when the vertical clip is the whole screen |
| Framebuffer.Framebuffer.WriteNext | src/dma2d.rs:325-354 | The writer never overtakes a source not yet read |
| Framebuffer.Framebuffer.Transfer | src/dma2d.rs:314-354 | However far the writer trails the reader, and whatever the cache does meanwhile, a copy completes exactly when the engine does not stop, and then moved the old pixels |
| Framebuffer.Framebuffer.CopyBlockDown | src/dma2d.rs:325-354 | Overlapping blocks copy as if read at once |
| Framebuffer.Framebuffer.ScrollUp | src/framebuffer.rs:1059-1091 | new(x, y) = old(x, y + distance) on the moved band, nothing else changes, and a failed move changes nothing outside its target rows; it fails exactly when there is nothing to move, the first cache pass is refused or the engine stops |
| Framebuffer.Framebuffer.DrawPixel | src/framebuffer.rs:168-177 | One pixel, if it is on screen and in the clip |
| Framebuffer.Framebuffer.TraceLine | src/framebuffer.rs:192-209 | Bresenham's loop paints exactly its run |
| Framebuffer.Framebuffer.DrawLine | src/framebuffer.rs:179-210 | The pixels changed are the visible ones of a line: max(DX, DY) + 1 points from one end to the other, each within half a pixel |
| Framebuffer.Framebuffer.DrawCircle | src/framebuffer.rs:297-323 | The pixels changed are the visible ones whose octant image is a visited column, and those are the nearest column of every row of the octant |
| Framebuffer.Framebuffer.PlotOctants | src/framebuffer.rs:301-314 | One octant point and its seven mirror images |
| Framebuffer.Framebuffer.FillRow | src/framebuffer.rs:328-339 | One row of the disc |
| Framebuffer.Framebuffer.FillCircle | src/framebuffer.rs:331-341 | Exactly the on-screen, in-clip pixels with dx² + dy² <= r² |
| Framebuffer.WalkCoversBlock | src/dma2d.rs:161-170 | A block's walk visits exactly the block, in address order |
| Framebuffer.CopyWalks | src/dma2d.rs:314-324 | Source and target are walked in step, a fixed distance apart |
| Raster.LinePathIsALine | src/framebuffer.rs:192-209 | The run starts and ends at the two points, steps one pixel at a time, and stays within half a pixel of the true line |
| Raster.LineStaysTrue | src/framebuffer.rs:192-209 | The error term keeps twice j·DX − i·DY within max(DX, DY), either way, at every step |
| Raster.LineOffsets | src/framebuffer.rs:192-199 | The loop's exit test fires at the far end and not before |
| Raster.CircleStays | src/framebuffer.rs:299-322 | Every visited column has x² − x + y² <= r² <= x² + x + y² |
| Raster.OctantIsComplete | src/framebuffer.rs:299-322 | The columns visited are the nearest one in every row of the octant |
| Raster.IntegerSqrt | src/framebuffer.rs:1353-1364 | Newton's method terminates at the floor square root |
| Raster.NewtonStops | src/framebuffer.rs:1357-1363 | When a step stops going down the root has been reached |
| Raster.RowOfDisc | src/framebuffer.rs:326-339 | A row cut at the integer root is exactly the disc's row |
| Coherence.WidenedRangeIsItsLines | src/psram.rs:309-335 | The widened range is exactly the cache lines that hold a byte of the range |
| Coherence.Memory.WritebackRange | src/psram.rs:309-335 | Done exactly when the range is not empty, in bounds and accepted; then every pixel of it is written back and dropped |
| Coherence.Memory.WritebackInvalidate | src/psram.rs:357-359 | An accepted operation leaves its lines fresh and absent |
| Coherence.Memory.FreshMeansOneValue | src/psram.rs:309-335 | CPU, display and later evictions agree on a pixel exactly when it is fresh |
| Coherence.Memory.Store | src/framebuffer.rs:86-91 | A store changes one pixel of a coherent picture |
| HttpDate.ClosedFormCountsDays | browser/src/cache.rs:331-341 | The era and day-of-era closed form is the day-by-day Gregorian count from 1970-01-01, for every month of every year |
| HttpDate.TomorrowIsOneMore | browser/src/cache.rs:331-341 | That count goes up by one from each day to the next, across months, leap days and years |
| HttpDate.SecondsKeepOrder | browser/src/cache.rs:297-342 | Dates that exist keep their order as seconds; two share a value exactly when the first is a leap second and the other the first second of the next minute |
| HttpDate.EpochIsDayZero | browser/src/cache.rs:341 | The count's origin is 1970-01-01 |
| HttpDate.ReadsExactlyTheFormat | browser/src/cache.rs:297-342 | Of all header values, those accepted are exactly the UTF-8 texts that are, trimmed, an IMF-fixdate, each as the fields it shows and their second |
| HttpDate.ReadsTheUnixClock | browser/src/cache.rs:297-342 | The date of the n-th second after the start of 1970 is read as n, for every n as long as years have four digits |
| HttpDate.NextSecondIsOneMore | browser/src/cache.rs:331-341 | The next second of the calendar is one more, through minutes, hours, days, months and years |
| HttpDate.ClockCounts | browser/src/cache.rs:331-341 | So many seconds after the start of 1970 the count is that many |
| HttpDate.MonthsByName | browser/src/cache.rs:314-318 | The months of the year go by these names, in this order |
| HttpDate.ExampleIsRead | browser/src/cache.rs:297-342 | `Sun, 06 Nov 1994 08:49:37 GMT` is read as 784111777 |
| HttpDate.StopsExactly | browser/src/cache.rs:300-318 | Of all header values, the program stops exactly at those whose trimmed text is 29 bytes long with `, ` and ` GMT` in place, a weekday, two digits, and a character across byte 8 or byte 11 |
| HttpDate.SplitMonthStops | browser/src/cache.rs:315-318 | `Sun, 06éov 1994 08:49:37 GMT` is one |
| Basics.EncodingIsUnique | browser/src/cache.rs:297-302 | Texts with the same bytes are the same text |
| Basics.BoundariesShow | browser/src/cache.rs:303-318 | A place in the bytes begins a character exactly when its byte is no continuation |
| HttpDate.EraYears | browser/src/cache.rs:332-340 | The era arithmetic counts the leap years of the calendar |
| HttpDate.MonthsFromMarch | browser/src/cache.rs:335-336 | Fifths of 153 days from March are days from the start of the year |
| CacheRecord.RoundTrip | browser/src/cache.rs:150-256 | An encoded record decodes to itself exactly when its key is not empty and its security code is at most 3 |
| CacheRecord.DecodesWhatLinesSay | browser/src/cache.rs:208-256 | A file is decoded exactly when it is short enough, begins with the magic line, and its other lines are empty or name a field and a value it can take; and then to the record whose every field is what the last line with its name holds |
| CacheRecord.FieldsByName | browser/src/cache.rs:229-240 | Which name stands for which field, and its limit |
| CacheRecord.ReadRecordsAreWritable | browser/src/cache.rs:208-256 | A record decoded from any file writes back in at most one byte more; it encodes exactly when no text holds a carriage return and that fits the limit, and then decodes to the same record |
| CacheRecord.WrittenIsTaken | browser/src/cache.rs:216-241 | The ten lines written are all taken, unless the security code is out of range |
| CacheRecord.Encode | browser/src/cache.rs:150-203 | Builds the file the format describes, or refuses |
| CacheRecord.Decode | browser/src/cache.rs:208-256 | Reads what the format says, or refuses |
| CacheRecord.DecodeLine | browser/src/cache.rs:216-241 | One line sets one field, or refuses the file |
| Decimal.NumberText | browser/src/cache.rs:160-172 | The digit loop writes the shortest numeral of any 64-bit number and never runs out of room |
| Decimal.NumeralIsRead | browser/src/cache.rs:160-172 | A numeral is read back as its number |
| SdBlocks.BuildDescriptorChain | src/sdmmc.rs:1083-1116 | Following the chain visits every byte of the buffer once and in order, with one FIRST, one LAST and no piece over 4096 bytes; refused exactly when empty or too long |
| SdBlocks.WireReachesTheBlock | src/sdmmc.rs:888-908 | A command reaches its block exactly when the card counts in blocks or the byte offset fits 32 bits |
| SdBlocks.Host.TransferBlocks | src/sdmmc.rs:888-908 | Succeeds exactly when no command is refused, and then moved exactly the blocks; nothing else ever changes |
| SdBlocks.Host.ReadBlocks | src/sdmmc.rs:805-824 | A read succeeds exactly when no command is refused; of addressable blocks it is then the card's blocks, directly or through staging |
| SdBlocks.Host.ReadStaged | src/sdmmc.rs:810-823 | Chunk by chunk, the same |
| SdBlocks.Host.WriteBlocks | src/sdmmc.rs:858-876 | A write succeeds exactly when no command is refused; to addressable blocks it then changed exactly those, to exactly the buffer |
| Input.InputManager.PushPendingKey | src/input.rs:432-439 | The ring is a bounded FIFO that drops the newest event when full |
| Input.InputManager.PopPendingKey | src/input.rs:441-449 | and gives the oldest back |
| Input.InputManager.PollKey | src/input.rs:394-430 | A pending key first, else the first ready source of CardKB, Tab5 keyboard and USB in rotation, which goes to the back; a failing keyboard is detached exactly when it was reached |
| Input.InputManager.PollPrimaryTouch | src/input.rs:541-574 | Pressed with the first contact exactly when a contact is down, no finger is held and no cancellation waits; Moved with the held finger's own contact exactly when it is among them; Released exactly when it is not |
| Input.InputManager.CancelPrimaryTouch | src/input.rs:579-582 | A cancellation blocks the stream until every contact was lifted |
| Input.PollFrames | src/input.rs:394-439 | Any number of polls with keys arriving in between is a run of the rotation, and which polls find an event waiting is what the arrivals say |
| Input.ServedWithinThreePolls | src/input.rs:394-430 | A source that has a key at each of the next polls, none of which finds an event waiting, is served within as many as the rotation takes to reach it, three at most |
| Input.ServedExactlyWhenTheRingRests | src/input.rs:391-430 | With every source always ready, one other than USB is served if and only if somewhere enough polls in a row find the ring empty: one after a waiting event for CardKB, two for the Tab5 keyboard |
| Input.PendingKeysStarveASource | src/input.rs:391-430 | With an event waiting before every other poll, the Tab5 keyboard is never served, however long the run |
| Input.TouchPhasesWellFormed | src/input.rs:541-582 | Over any run a gesture is Pressed, then Moved of the same contact, then Released or cancelled, and nothing is pressed after a cancel until all were lifted |
| Input.TouchPhasesExact | src/input.rs:541-582 | Over any run each phase is reported exactly when it should be, and with the contact of that very report |
| Tick.Clock.NowMs | src/tick.rs:128-140 | The value is the true 64-bit count at an instant during the call, wherever interrupts run between the three loads |
| Tick.Clock.NowTwice | src/tick.rs:128-140 | Successive calls never go backwards |
| Tick.Clock.HandleInterrupt | src/tick.rs:157-168 | One interrupt counts one tick across both words |
| Tick.UntornRead | src/tick.rs:131-138 | Equal high words around the low one mean an untorn count |
| Tick.Clock.ReadBetweenHalves | src/tick.rs:157-168 | A reader let in between the two halves of the handler's carry passes its own check and is 2^32 ms ahead |

## Left out

- Document anchors and their limits, `TooManyAnchors` included: names and ids only feed a lookup list.
- Image sources, dimensions and borders, textarea rows and form methods: parsed attributes stored unchanged.
- The styled parts, inline elements and images inside a button's label, and the items they count: a smaller copy of runs and frames.
- Document.Builder.PushButtonText: keeps the label, not its styled parts, and does not stop when there are too many of them.
- Document.Builder.StartInButton: counts nested controls; inline elements and images inside a button, and their limits, are left out.
- Document.Builder.EndInButton: ends the button and nested controls; inline elements inside a button are left out.
- Document.Builder.Feed: its errors are exact but for the limits on anchors, on a button's parts and on memory, which are left out.
- Resolving labels to controls by element id and the page statistics, both read-only passes after the last event.
- The tokenizer, decoder and `Url`: the model starts at the events, element names are an enumeration and `resolve` an arbitrary function.
- `owned_bytes` accounting and allocation failure: vectors grow without limit except where the code checks one.
- 16-bit and 32-bit indices of the document: every list is bounded by 16384 items and text by 1 MiB, so the casts are exact.
- Console colors, pixel layout of glyphs and UART echo: a cell's paint is its glyph or the cursor block.
- Console.Console.Session: steps out of turn are passed over, because the code relies on a blank row before output and on a prompt before keys.
- The console's whole-margin repaint in `redraw`, and drawing under a clip: the view is the cell grid.
- Framebuffer text, glyph and image drawing, `read_rect`, `stroke_rect` and the coordinate chart: loops of the pixel writes that are modelled.
- 32-bit overflow of coordinates and radii far beyond the screen in lines, circles and the square root: arithmetic is exact.
- Framebuffer.Framebuffer.FillRect: promises nothing when the second cache pass of a fill by DMA is refused, because the code ignores that refusal, and cache lines from before the fill may then hide it.
- DMA register programming, burst sizes, timeouts and interrupt handling: an engine finishes, or fails having done any part.
- PSRAM timing, tuning and tests, and the ROM's cache routines: hardware behaviour.
- Cache entry file names, purge order and freshness rules (browser/src/cache.rs:37-146, 278-293, 354-362): short expressions over the record.
- CacheRecord.Decode: works on decoded text; files that are not UTF-8 are refused before.
- SD command sequences, clocks, card identification and retries: a transfer succeeds or fails.
- USB hosts, I2C keyboards and touch controllers: they offer keys and contacts, or fail.
- The timer's set-up and the one-tick latency of its interrupt: ticks are interrupts.
