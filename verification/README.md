# A verified model of a PDF editor's content streams

The editor keeps a page's content stream as a tree of operators in which every operator is also linked
into one flat queue. It parses streams into that structure, edits it, prints it back, computes matrices by
walking it, and mirrors other parts of the document in the same observer-driven way. This project models
that code in Dafny and proves what it keeps, what it undoes and where it is wrong.

## What is modelled

**Operator tree and queue.** `Forest.dfy` holds ordered forests and the mathematics of cutting and splicing
subtrees. `PdfOperator.dfy`, `OperatorTree.dfy` and `QueueLinks.dfy` are the heap objects with children and
prev/next fields. `ContentStream.dfy` has the class with the edits delete, insert, front insert, replace, save
and reparse; `Valid()` says that the children fields spell out a forest without repetitions and that the
prev/next fields thread exactly its preorder. Every edit is proved against a function on forests, so `Valid()`
holds in every reachable state; the one exception is stated exactly (inserting a composite in the middle of the
queue), and `CompositeInsertion.dfy` builds a stream in which it happens. `EditLaws.dfy` says which edits undo each
other and which commute.

**Parsing.** `OperatorTable.dfy` is the table of operators with operand checks and the integer-to-real
conversion. `StreamGrammar.dfy` is the grammar on the level of objects and commands; `StreamParser.dfy` is the
parser that builds linked objects, proved against it. `Lexer.dfy` and `ObjectReader.dfy` model the lexer and
object parser underneath, character by character over a list of streams, with 32-bit wrap-around, the token
buffer limit, the two-token lookahead for references and the raw data of inline images. `SpelledNumbers.dfy`,
`SpelledStrings.dfy` and `Spellings.dfy` prove that the lexer reads every token in every spelling the standard
allows; `ObjectSyntax.dfy` proves which tokens the object parser accepts, and as what.

**Printing.** `ObjectText.dfy` defines the printed forms; `ObjectPrinter.dfy` and `StringEscape.dfy` have the
printing loops (the trimming works in place on a character buffer). `TokenText.dfy`, `NameReading.dfy` and
`ObjectRoundTrip.dfy` read every printed object back, and `InlineImages.dfy` every inline image.
`StreamRoundTrip.dfy` composes everything: saving a forest to any number of streams and parsing them again;
`LoadedStreams.dfy` starts from any bytes. `SavedEdits.dfy` says which edits leave a stream that can be saved and
loaded as one, which the edits of the user interface below use. `Stability.dfy` says
which streams come back exactly as they were, and that repeated saving and reloading settles all of them.

**Matrices and edits by the user interface.** `Graphics.dfy` runs operators forwards with the q/Q stack and
backwards with the counter used by the image editor. `ImageDrag.dfy`, `MatrixScan.dfy` and `ImageEdits.dfy` prove the
image drag on the linked structure; `TextErase.dfy` does the same for erasing text, and `TextPosition.dfy` says where the text
behind it is then drawn. `LeafEdits.dfy` has the edits they share.

**Search.** `SearchAutomaton.dfy` and `SearchTree.dfy`: the fall-back automaton over tokens of text, its linked
states, and the exact class of patterns for which it is right.

**Other structures.** `Containers.dfy`: arrays and dictionaries as object trees with ownership, edited at any depth.
`PageAnnots.dfy`: the annotation mirror. `PageAttributes.dfy`: inherited page attributes. `NameTree.dfy`: named
destinations. `Delinearizator.dfy`, `PageFonts.dfy`, `StreamBuffer.dfy`: three smaller loops.

## Where the code is narrower than it looks

These are proved, each with its exact condition and with inputs on which the code fails:

- Inserting a composite with children keeps the queue in order exactly when nothing follows the insertion point
  (`CContentStream.InsertOperator`); replacing and inserting in front have no such restriction. An empty `q Q` pair
  breaks it behind every operator but the last (`InsertPair`), in a stream built by three insertions (`BrokenQueue`).
- A string comes back unchanged exactly when it contains no escape of a backslash or parenthesis, or, as a
  hexadecimal string, does not start with a backslash (`RereadStrIsIdentity`); others lose backslashes
  (`BackslashesAreLost`).
- A name survives in every context exactly when it is plain: shorter than the token buffer, no NUL, no delimiter,
  no number sign in front of a hexadecimal digit (`NamesThatSurvive`); a delimiter ends it early (`NameCutShort`).
- An inline image comes back whole exactly when its data has no EI in it (`PrintedImageIsRead`); data that the end of
  its stream cuts off loses its last character (`DataCutOff`).
- The backward matrix scan ignores everything before a restore without a save (`ScanIsRun`, `StrayMisleads`).
- The image drag follows the pointer exactly on pages that are not shown rotated (`SeenIffUnrotated`).
- Erasing text moves what follows on the line to the start of the line, up to the next operator that sets a position,
  unless the erased stretch ended there before (`FollowingTextMoves`, `ErasedInOneMoves`).
- The search is right exactly for patterns whose first character does not come again; others hang or report
  text that is not there (`RightIffFirstIsUnique`, `FalseMatch`, `Hang`).
- Deleting an annotation keeps the mirror in order exactly when the annotation's position in the mirror is that of
  its own reference in the array (`CPageAnnots.Del`); on a page whose array starts with anything but a reference to a
  dictionary, deleting the first annotation does not (`DelFirst`, `Stranded`).
- Pruning by limits is harmless, in a tree whose names are all different, exactly when the limits of every node bound
  the names below it (`ScanIffBounded`); otherwise some name of the tree is not found (`Hidden`).

## Conventions

A `Forest` is read in first-child / next-sibling form. `Contents` maps a forest of objects to the forest of what
they print as. Ghost parameters called `kids`, `k`, `q` or `ch` name the shape of a heap structure and its
snapshot. Reals are exact; printing rounds half to even to five decimals.

## Model

| member | source | states |
|---|---|---|
| `Forests.SubtreeIsSegment` | src/kernel/ccontentstream.cc:804-822 | an operator with everything below it is one contiguous segment of the queue order, which is what lets an edit relink at two places only |
| `Forests.SpliceFlat` | src/kernel/ccontentstream.cc:1042-1071 | replacing a subtree replaces its segment of the queue order and nothing else |
| `Forests.SpliceRoots` | src/kernel/ccontentstream.cc:797-801 | on the first level an edit of the tree is an edit of one list element |
| `Forests.SpliceFits` | src/kernel/ccontentstream.cc:781-801 | an edit changes exactly one child list, the one holding the operator, whatever the depth |
| `Forests.CutMembers` | src/kernel/ccontentstream.cc:781-828 | removal splits the operators into those that stay and those of the detached tree, with none lost or doubled |
| `Forests.InsertMembers` | src/kernel/ccontentstream.cc:880-921 | insertion and replacement bring no operator in twice |
| `Forests.OneParent` | src/kernel/ccontentstream.cc:784-790 | below the first level exactly one composite lists an operator, and it comes before it in the queue |
| `PdfOperators.PdfOperator.Remove` | src/kernel/pdfoperatorsbase.cc:138-147 | erases one child, found by identity, leaving the queue alone |
| `PdfOperators.PdfOperator.InsertAfterChild` | src/kernel/pdfoperatorsbase.cc:162-168 | inserts behind a child found by identity |
| `PdfOperators.GetLastOperator` | src/kernel/pdfoperatorsbase.cc:207-226 | returns the last operator of the subtree in queue order, by walking the last children |
| `PdfOperators.LastTreeEndsForest` | src/kernel/pdfoperatorsbase.cc:207-226 | the last operator of a tree ends its segment of the queue |
| `OperatorTree.FindCompositeOfPdfOperator` | src/kernel/ccontentstream.cc:784-790 | walking the queue finds the one composite holding an operator below the first level, and finds none exactly when the operator is not in the tree |
| `OperatorTree.TreeEdited` | src/kernel/ccontentstream.cc:781-801 | editing only the holder's child list gives the spliced forest, and leaves the removed subtree intact |
| `QueueLinks.UnlinkTree` | src/kernel/ccontentstream.cc:804-828 | taking a subtree out of the queue leaves both the rest and the subtree correctly threaded |
| `QueueLinks.LinkTree` | src/kernel/ccontentstream.cc:903-921 | linking only the new operator behind the last of the old one threads the result exactly when the new one is childless or comes last |
| `QueueLinks.RelinkTree` | src/kernel/ccontentstream.cc:1042-1071 | replacing a segment of the queue by another threads both the result and the segment taken out |
| `QueueLinks.LinkFront` | src/kernel/ccontentstream.cc:960-968 | linking a tree in front of the first operator threads the result |
| `ContentStream.CContentStream.DeleteOperator` | src/kernel/ccontentstream.cc:764-843 | removes the operator's subtree from tree and queue, keeps both in agreement, leaves the subtree as a correctly threaded tree of its own, and reports read-only documents and unknown operators |
| `ContentStream.CContentStream.InsertOperator` | src/kernel/ccontentstream.cc:849-935 | inserts behind an operator; tree and queue agree afterwards exactly when the new operator is childless or ends up last; into an empty stream nothing is saved |
| `ContentStream.CContentStream.FrontInsertOperator` | src/kernel/ccontentstream.cc:940-984 | puts a tree before everything else, composites included, keeping both views in agreement |
| `ContentStream.CContentStream.ReplaceOperator` | src/kernel/ccontentstream.cc:989-1086 | swaps subtrees, composites included, keeping both views in agreement; the old subtree is left correctly threaded |
| `ContentStream.CContentStream.ObjectChanged` | src/kernel/ccontentstream.cc:695-752 | the whole text goes into the first stream and all others become empty |
| `ContentStream.CContentStream.Reparse` | src/kernel/ccontentstream.cc:630-653 | the operators are exactly those the streams spell out, inline images among them, freshly linked in both views; none after a document exception |
| `ContentStream.CContentStream.constructor` | src/kernel/ccontentstream.cc:573-580 | a new content stream has the operators its streams spell out, in both views |
| `ContentStream.CContentStream.Locate` | src/kernel/ccontentstream.cc:781-787 | an operator is found on the first level or below its one composite |
| `ContentStream.CContentStream.RemoveFromTree` | src/kernel/ccontentstream.cc:781-801 | exactly the list holding the operator loses it |
| `ContentStream.CContentStream.InsertIntoTree` | src/kernel/ccontentstream.cc:880-901 | exactly the list holding the operator gains the new one behind it |
| `ContentStream.CContentStream.ReplaceInTree` | src/kernel/ccontentstream.cc:1016-1039 | exactly the list holding the operator has it replaced |
| `ContentStream.OperatorToString` | src/kernel/pdfoperatorsbase.cc:174-189 | an operator is printed with everything below it, an inline image with its entries and its data |
| `ContentStream.ImageToString` | src/kernel/cinlineimage.cc:156-175 | the entries of an inline image by name, ID, a NUL, and all bytes of the data |
| `ContentStream.OperatorsToString` | src/kernel/ccontentstream.h:280-298 | operators are printed in order, a space behind each |
| `ContentStream.ReplaceTwice` | src/kernel/ccontentstream.cc:1016-1039 | inserting behind an operator and then removing it is replacing it |
| `CompositeInsertion.InsertPair` | src/kernel/ccontentstream.cc:903-921 | behind every operator of every stream but the last one, inserting a composite with a child makes tree and queue disagree |
| `CompositeInsertion.BrokenQueue` | src/kernel/ccontentstream.cc:849-935 | a stream in which that happens, reached from an empty one |
| `EditLaws.DeleteUndoesInsert` | src/kernel/ccontentstream.cc:764-935 | deleting what was inserted, behind any operator or in front, restores the forest |
| `EditLaws.ReplaceUndoesReplace` | src/kernel/ccontentstream.cc:989-1086 | putting a replaced tree back restores the forest |
| `EditLaws.ReplaceIsInsertThenDelete` | src/kernel/ccontentstream.cc:989-1086 | replacing equals inserting behind and deleting |
| `EditLaws.EditsCommute` | src/kernel/ccontentstream.cc:764-1086 | edits of operators neither of which contains the other commute |
| `OperatorTable.OperandsUsedUp` | src/kernel/stateupdater.cc:1239-1283 | every operator takes all operands read before it, and composites take none |
| `OperatorTable.FixKeepsValues` | src/kernel/stateupdater.cc:1239-1283 | operand fixing only turns integers into equal reals, and keeps their number |
| `OperatorTable.CreateTwice` | src/kernel/stateupdater.cc:1239-1283 | making an operator again from its own operands gives the same operator |
| `OperatorTable.MadeExactly` | src/kernel/stateupdater.cc:1239-1283 | an operator is made exactly when the count fits and every operand has a kind that its own place allows; the i-th operand becomes the equal real exactly where it is an integer and a real may stand, else stays as it is; unknown operators take anything |
| `OperatorTable.WithoutOperands` | src/kernel/stateupdater.cc:1010-1176 | the standard's operators without operands take none |
| `OperatorTable.Composites` | src/kernel/stateupdater.cc:1010-1176 | q, BT and BX are made without operands only, as composites that end with Q, ET and EX |
| `OperatorTable.WithOneNumber` | src/kernel/stateupdater.cc:1010-1176 | these operators take exactly one number |
| `OperatorTable.WithTwoNumbers` | src/kernel/stateupdater.cc:1010-1176 | these take exactly two numbers, among them Td |
| `OperatorTable.WithThreeNumbers` | src/kernel/stateupdater.cc:1010-1176 | these take exactly three numbers |
| `OperatorTable.WithFourNumbers` | src/kernel/stateupdater.cc:1010-1176 | these take exactly four numbers |
| `OperatorTable.WithSixNumbers` | src/kernel/stateupdater.cc:1010-1176 | these take exactly six numbers, among them cm |
| `OperatorTable.Colours` | src/kernel/stateupdater.cc:1010-1176 | SC and sc take up to four numbers |
| `OperatorTable.Patterns` | src/kernel/stateupdater.cc:1010-1176 | SCN and scn take up to five numbers and names |
| `OperatorTable.WithInteger` | src/kernel/stateupdater.cc:1010-1176 | these take exactly one integer |
| `OperatorTable.WithName` | src/kernel/stateupdater.cc:1010-1176 | these take exactly one name |
| `OperatorTable.WithText` | src/kernel/stateupdater.cc:1010-1176 | Tj and ' take exactly one string, TJ exactly one array |
| `OperatorTable.WithMark` | src/kernel/stateupdater.cc:1010-1176 | BDC and DP take a name and a name or a dictionary |
| `OperatorTable.WithFontOrDash` | src/kernel/stateupdater.cc:1010-1176 | Tf takes a name and a number, d an array and a number |
| `OperatorTable.OtherOperators` | src/kernel/stateupdater.cc:1010-1176 | EI alone takes nothing; every operator outside the table takes whatever there is |
| `StreamGrammar.ParseFlattened` | src/kernel/ccontentstream.cc:272-420 | reading the flattened form of well-nested operators gives the forest back with operands converted, and leaves nothing |
| `StreamGrammar.ParseUndoesFlatten` | src/kernel/ccontentstream.cc:272-420 | parsing undoes flattening exactly on the well-nested forests of canonical operators |
| `StreamGrammar.ParsedNested` | src/kernel/ccontentstream.cc:272-420 | whatever is read, the operators kept are well nested |
| `StreamGrammar.ParseReadsPrefix` | src/kernel/ccontentstream.cc:272-420 | on any input the items of the operators read are a prefix of the input, reading stops at the first operator that cannot be completed, and a regular end leaves operands only |
| `StreamGrammar.ParseStops` | src/kernel/ccontentstream.cc:226-420 | behind complete operators reading stops at a bad object, a broken array or dictionary, or an operator with wrong operands, with the exception each of them raises; what was read before is kept |
| `StreamParser.CreateOperandsFromStream` | src/kernel/ccontentstream.cc:187-217 | operands are collected up to the next command, image or failure |
| `StreamParser.PutBehind` | src/kernel/pdfoperatorsbase.cc:59-82 | linking one operator behind another threads the queue exactly when it has no children or nothing follows |
| `StreamParser.PushBack` | src/kernel/pdfoperatorsbase.cc:94-133 | a new last child, linked behind the last operator so far, leaves both views in agreement |
| `StreamParser.ParseOperator` | src/kernel/ccontentstream.cc:225-317 | the linked operator built is the one the grammar gives, in both views, with the same rest and the same failures |
| `StreamParser.ParseChildren` | src/kernel/ccontentstream.cc:278-314 | the children of a composite up to its end tag, each linked behind the last descendant of the one before |
| `StreamParser.ParseTop` | src/kernel/ccontentstream.cc:359-420 | the first-level loop collects all operators under one composite, threaded |
| `StreamParser.ParseStream` | src/kernel/ccontentstream.cc:334-457 | the operators of a stream are those of the grammar, linked in both views; after the document exception there are none |
| `SpelledNumbers.BlanksSkipped` | src/xpdf/xpdf/Lexer.cc:119-135 | exactly the white space of the standard and comments up to the end of their line are passed over |
| `SpelledNumbers.DigitsRead` | src/xpdf/xpdf/Lexer.cc:140-190 | any digits are read as the number they stand for, up to the largest magnitude of 32 bits |
| `SpelledNumbers.DecimalsRead` | src/xpdf/xpdf/Lexer.cc:170-190 | any digits behind a decimal point are read as their value; minus signs among them count for nothing |
| `SpelledStrings.PiecesRead` | src/xpdf/xpdf/Lexer.cc:193-304 | a literal string stands for the values of its pieces: characters, nested parentheses, escapes by letter and by one to three octal digits, joined lines |
| `SpelledStrings.HexUnitsRead` | src/xpdf/xpdf/Lexer.cc:355-413 | a hexadecimal string stands for its digits in either case, two a byte, white space passed over and a missing last digit taken for 0, also when it is not closed |
| `Spellings.NamePartsRead` | src/xpdf/xpdf/Lexer.cc:306-345 | a name stands for its characters, each as it is or as a code of two hexadecimal digits |
| `Spellings.LongWordRead` | src/xpdf/xpdf/Lexer.cc:437-463 | a word that does not fit into the token buffer is cut, and the character that fills it is lost |
| `Spellings.SpellingRead` | src/xpdf/xpdf/Lexer.cc:111-463 | a token in any spelling is read as what it stands for, and what follows is left |
| `Spellings.AnySpellingIsRead` | src/xpdf/xpdf/Lexer.cc:111-463 | text put together from tokens in any spelling, with white space and comments between them, is taken apart into exactly these tokens |
| `Spellings.NextStream` | src/xpdf/xpdf/Lexer.cc:88-102 | at the end of a stream reading goes on in the next one |
| `Spellings.ParensCutOff` | src/xpdf/xpdf/Lexer.cc:193-304 | a literal string that the end of the last stream cuts off is what was read so far |
| `Spellings.AnglesCutOff` | src/xpdf/xpdf/Lexer.cc:355-413 | so is a hexadecimal one |
| `Spellings.WrapsAround` | src/xpdf/xpdf/Lexer.cc:140-168 | a number too large for 32 bits is read as the one in range that differs by a multiple of two to the power of 32 |
| `ObjectSyntax.ParsedExactly` | src/xpdf/xpdf/Parser.cc:40-160 | an object is parsed exactly when the tokens start with its own, no dictionary in it has a name twice, and it is not an integer that starts a reference |
| `ObjectSyntax.ArrayRefused` | src/xpdf/xpdf/Parser.cc:62-80 | an array with a command or an illegal token in it is no operand and reading goes on behind it; one without an end stops the reader |
| `ObjectSyntax.DictRefused` | src/xpdf/xpdf/Parser.cc:83-110 | a dictionary with something else than a name for a key or without an end stops the reader; with a command for a value or a name twice it is no operand; an illegal token for a value ends it early |
| `StringEscape.MakeStringPdfValid` | src/kernel/cobjectsimple.h:375-404 | the right-to-left loop with its parity flag computes the escaped form |
| `StringEscape.EscapedIsFromLeft` | src/kernel/cobjectsimple.h:375-404 | the right-to-left scan equals a left-to-right one that keeps existing escapes and adds missing ones |
| `StringEscape.EscapedForm` | src/kernel/cobjectsimple.h:375-404 | an odd run of backslashes before every parenthesis and even runs elsewhere; unchanged exactly on input of that form; idempotent |
| `StringEscape.LiteralStops` | src/kernel/cobject2string.cc:248-253 | a literal-string reader stops exactly at the parenthesis appended |
| `StringEscape.RereadIsIdentity` | src/kernel/cobjectsimple.h:375-404 | escaping and reading is the identity exactly on strings without an escaped backslash or parenthesis; all others get shorter |
| `TokenText.IntReads` | src/kernel/cobject2string.cc:133-139 | a printed 32-bit integer is read back |
| `TokenText.ReadableRealText` | src/kernel/cobject2string.cc:166-187 | a real in the range of the reader is printed whole: sign, whole part and the decimals without trailing zeros |
| `TokenText.RealReads` | src/kernel/cobject2string.cc:166-187 | a printed real is read back rounded to five decimals, as an integer when they are all zero |
| `TokenText.StrReads` | src/kernel/cobject2string.cc:240-271 | a printed string is one token whose value is the unescaped string, or the bytes of the hexadecimal form |
| `TokenText.PrintedForm` | src/kernel/cobject2string.cc:240-271 | a string is printed in parentheses exactly when all its characters are printable |
| `TokenText.HexReads` | src/kernel/cobject2string.cc:221-235 | two hexadecimal digits a byte read back as the bytes |
| `TokenText.RereadStrIsIdentity` | src/kernel/cobject2string.cc:240-271 | the strings that come back unchanged are exactly those without escapes, and binary ones not starting with a backslash |
| `TokenText.BackslashesAreLost` | src/kernel/cobject2string.cc:221-271 | every string with an escape in it, and every binary one that starts with a backslash, comes back shorter |
| `NameReading.NameReads` | src/kernel/cobjectsimple.h:322-343 | a printed plain name is read back whole |
| `NameReading.NamesThatSurvive` | src/kernel/cobjectsimple.h:322-343 | the names that are read back wherever they stand are exactly the plain ones |
| `NameReading.NameCutShort` | src/kernel/cobjectsimple.h:322-343 | a name with a delimiter is read up to it, and a number sign with two hexadecimal digits is read as a code |
| `ObjectRoundTrip.ObjReads` | src/kernel/cobject2string.cc:123-335 | the text of a readable object tree is taken apart into the tokens it was put together from |
| `ObjectRoundTrip.ObjParses` | src/xpdf/xpdf/Parser.cc:40-130 | the tokens of an object tree are parsed back into its normal form, unless an integer and what follows make a reference |
| `ObjectSyntax.ItemsHideNoRef` | src/kernel/cobject2string.cc:280-305 | no reference arises by accident between array elements |
| `ObjectRoundTrip.PrintedObjectIsRead` | src/kernel/cobject2string.cc:123-335 | reading the printed form of any readable object gives its normal form and leaves what follows |
| `InlineImages.DataReads` | src/kernel/ccontentstream.cc:152-168 | image data is read back whole, and what follows EI is left, exactly when it has no EI in it |
| `InlineImages.DataCutOff` | src/kernel/ccontentstream.cc:152-168 | data without an EI behind it goes to the end of its stream and loses its last character |
| `InlineImages.ImageItem` | src/kernel/ccontentstream.cc:108-177 | an image is read from its names and values up to ID and its data; with a name twice it is refused |
| `InlineImages.PassedOver` | src/kernel/ccontentstream.cc:121-137 | what stands between the entries and is no name is passed over |
| `InlineImages.ImageRefused` | src/kernel/ccontentstream.cc:121-146 | there is no image without an ID, with a name without a value, with a command for a value, or with a broken array for one |
| `InlineImages.PrintedImageIsRead` | src/kernel/cinlineimage.cc:156-175 | reading a printed image gives back its entries in normal form and its data, and leaves what follows, exactly when the data has no EI in it |
| `ObjectPrinter.TrimTrailingZero` | src/kernel/cobject2string.cc:148-161 | in place, the number in the buffer loses its trailing zeros and a bare decimal point |
| `ObjectPrinter.RealToString` | src/kernel/cobject2string.cc:166-187 | a real is printed with at most five decimals, cut off where the buffer ends |
| `ObjectPrinter.IsBinaryString` | src/kernel/cobject2string.cc:211-219 | true exactly when some character is not printable |
| `ObjectPrinter.MakeHexString` | src/kernel/cobject2string.cc:221-235 | two digits a byte, one leading backslash left out |
| `ObjectPrinter.MakeNamePdfValid` | src/kernel/cobjectsimple.h:322-343 | characters outside the visible range become codes |
| `ObjectPrinter.StringToString` | src/kernel/cobject2string.cc:240-271 | printable strings become literal ones, all others hexadecimal |
| `ObjectPrinter.ArrayToString` | src/kernel/cobject2string.cc:280-305 | the loop over the elements prints the array |
| `ObjectPrinter.DictToString` | src/kernel/cobject2string.cc:309-335 | the loop over the entries prints the dictionary |
| `ObjectPrinter.ObjectToString` | src/kernel/cobject2string.cc:123-335 | any object tree is printed as specified |
| `StreamRoundTrip.ForestReads` | src/kernel/ccontentstream.h:280-298 | the text of a forest of operators, inline images among them, is taken apart into its tokens |
| `StreamRoundTrip.ForestParses` | src/kernel/ccontentstream.cc:187-255 | the tokens of a forest are read back as its operands and commands |
| `StreamRoundTrip.NormalMakes` | src/kernel/stateupdater.cc:1239-1283 | an operator accepts its own operands in the form in which they are read back |
| `StreamRoundTrip.SaveThenReload` | src/kernel/ccontentstream.cc:630-752 | saving a printable, well-nested forest, inline images included, to any number of streams and parsing them gives the same operators in the same nesting, operands in normal form, with nothing left unread |
| `LoadedStreams.TokensLexed` | src/xpdf/xpdf/Lexer.cc:111-463 | from bytes the lexer delivers only integers of 32 bits, strings of bytes, names without NUL, image data without EI, and commands that can be printed and read again |
| `LoadedStreams.ObjLoaded` | src/xpdf/xpdf/Parser.cc:40-160 | the objects parsed from them are readable but for names and reals; commands stay commands |
| `LoadedStreams.LoadedIsPrintable` | src/kernel/ccontentstream.cc:334-457 | of any streams of bytes, inline images included, the operators loaded are well nested, and printable exactly when names are plain, those of inline images without codes, reals in range and no reference is hidden |
| `LoadedStreams.LoadSaveLoad` | src/kernel/ccontentstream.cc:630-752 | loading such streams, saving and loading again gives the same operators, inline images included, operands in normal form |
| `Stability.RoundedReal` | src/kernel/cobject2string.cc:166-187 | what is read back differs from the real by at most half a hundred-thousandth, equals it exactly when it has five decimals, and is an integer exactly when it rounds to one |
| `Stability.NearestEven` | src/kernel/cobject2string.cc:166-187 | what is printed is the nearest number of hundred-thousandths, and of two as near the even one |
| `Stability.StableIsNormal` | src/kernel/cobject2string.cc:123-335 | an object comes back exactly as it was if and only if it is stable |
| `Stability.SameAfterReload` | src/kernel/ccontentstream.cc:630-752 | a stream comes back exactly as it was if and only if all its operands and image entries are stable |
| `Stability.ReloadSettles` | src/kernel/ccontentstream.cc:630-752 | every printable, well-nested stream settles: after at most as many reloads as its strings are long, and one more, further ones change nothing; one is enough when no string changes |
| `Graphics.ScanFinds` | src/gui/insertImage.cpp:174-209 | the backward scan with a counter of k finds the k-th saved matrix of running forwards |
| `Graphics.ScanIsRun` | src/gui/insertImage.cpp:174-215 | on any sequence the scan gives the matrix of running forwards from the last restore without a save; without one it is the current matrix |
| `Graphics.ScanAndRunAgreeFromStray` | src/gui/insertImage.cpp:174-215 | running forwards reaches such a restore with nothing saved and then does what the scan does |
| `Graphics.StrayRightIff` | src/gui/insertImage.cpp:174-215 | behind a stray restore the scan is right for all operators that follow exactly when the current matrix there is still the initial one |
| `Graphics.StrayMisleads` | src/gui/insertImage.cpp:186-195 | behind a matrix and a stray restore the scan is right exactly when the matrix changed nothing |
| `Graphics.TidyHasNoStray` | src/gui/insertImage.cpp:174-209 | in a well-nested stream whose restores all close their own save no operator is preceded by a stray restore |
| `Graphics.ProductApplies` | src/gui/insertImage.cpp:203-206 | the product of two matrices takes a point where the second takes it from where the first did |
| `Graphics.CmMovesPoints` | src/gui/insertImage.cpp:203-206 | behind a b c d e f cm a point (x, y) is where (a x + c y + e, b x + d y + f) was before, as long as no entry is cut off |
| `Graphics.ClampIsNearest` | src/gui/insertImage.cpp:203-206 | an entry beyond the limit becomes the nearest one within it |
| `ImageDrag.InvertedFlips` | src/gui/insertImage.cpp:218-219 | for every non-singular matrix the computed one times it flips the vertical axis and keeps the origin |
| `ImageDrag.SeenIffUnrotated` | src/gui/TabPage.cpp:1580-1588 | the displacement is seen as the pointer's exactly on pages not shown rotated |
| `ImageDrag.TurnsClockwise` | src/gui/TabPage.cpp:1580-1588 | a quarter turn keeps the length and is clockwise, and four of them are none |
| `ImageDrag.TurnedBackIsSeen` | src/gui/TabPage.cpp:1580-1588 | turned back, the displacement is seen as exactly the pointer's on any page |
| `ImageDrag.EditMovesOnlyTheImage` | src/gui/TabPage.cpp:1589-1593 | between a translation and its opposite the image runs with its matrix moved and clamped; when nothing is clamped, all operators behind run in the state they ran in before |
| `ImageDrag.DragMovesTheImage` | src/gui/TabPage.cpp:1569-1597 | on a page not shown rotated the image moves by exactly the pointer's displacement in device space, exactly when that stays within the limit of matrix entries, and then every other operator keeps its state |
| `MatrixScan.LabelsOfFlat` | src/gui/insertImage.cpp:174-185 | what the queue shows is the preorder of what the tree shows |
| `MatrixScan.CollectMatrices` | src/gui/insertImage.cpp:174-209 | the loop along the prev links collects the matrices the scan defines |
| `MatrixScan.GetInvertMatrix` | src/gui/insertImage.cpp:169-233 | the matrix computed on the linked operators is the current one of running forwards, whose operands are read in the order of the standard (`Graphics.CmMovesPoints`), and the other is its inverse for displacements |
| `ImageEdits.PutAround` | src/gui/TabPage.cpp:1591-1593 | the replace and two inserts leave the image between the two translations, both views in agreement, and save |
| `ImageEdits.DragImage` | src/gui/TabPage.cpp:1569-1597 | the whole branch: something moves exactly when the document is writable, the pointer went two pixels or more in one direction and the matrix has an inverse; then what is in the queue, and the stream text, from which the stream loads again as it is; on a page not shown rotated, in this queue the image has moved by exactly the pointer's displacement and every other operator keeps its state |
| `LeafEdits.InsertLeaf` | src/kernel/ccontentstream.cc:849-935 | inserting a childless operator always keeps both views in agreement |
| `SavedEdits.SpliceLoads` | src/kernel/ccontentstream.cc:764-1086 | replacing one operator's tree by others, end tags apart, leaves a stream that can be saved and loaded as one |
| `SavedEdits.NumbersLoad` | src/gui/TabPage.cpp:1589-1593 | the translations the editor writes are what it makes of their own text |
| `SavedEdits.SavedIsLoaded` | src/kernel/ccontentstream.cc:630-752 | such a stream, saved and loaded again, has the operators of the tree |
| `TextErase.ShiftedIsNeutral` | src/gui/TabPage.cpp:3227-3240 | a translation, shown text and the opposite translation leave the text line matrix as it was |
| `TextErase.SameEffect` | src/gui/TabPage.cpp:3202-3297 | operators outside a segment run in the same text state when it is replaced by one of the same effect |
| `TextErase.EraseInOne` | src/gui/TabPage.cpp:3208-3250 | erasing inside one operator puts the kept text right behind it, between two translations, where it runs at the line matrix of that operator moved by the distance; every operator keeps its text line matrix, leading and saved values; the saved text loads again |
| `TextErase.DeleteBetween` | src/gui/TabPage.cpp:3255-3268 | deleting the operators inside the selection leaves exactly the others, in order, and their text state |
| `TextErase.ShiftLast` | src/gui/TabPage.cpp:3281-3294 | what is kept of the last operator takes its place, between two translations, and runs at its line matrix moved by the distance; all others keep their text state; the saved text loads again |
| `TextErase.EraseAcross` | src/gui/TabPage.cpp:3251-3297 | erasing over several operators leaves the others in order, with the kept text in the place of the last one; every operator outside keeps its text line matrix, leading and saved values; the saved text loads again |
| `TextPosition.TdMovesPoints` | src/gui/TabPage.cpp:3227-3240 | behind x y Td a point is where the one displaced by (x, y) was before |
| `TextPosition.TmSetsPoints` | src/gui/TabPage.cpp:3202-3297 | a b c d e f Tm sets the line matrix whatever it was |
| `TextPosition.LinesByLeading` | src/gui/TabPage.cpp:3202-3297 | TD, T*, ' and the quotation mark move as the standard puts them together from TL and Td |
| `TextPosition.BtStartsOver` | src/gui/TabPage.cpp:3202-3297 | BT makes the line matrix the identity and keeps the leading |
| `TextPosition.RestoresLeading` | src/gui/TabPage.cpp:3202-3297 | a restore brings the saved leading back and leaves the line matrix |
| `TextPosition.ShownTextMoves` | src/gui/TabPage.cpp:3202-3297 | shown text moves the text matrix along its line, and only positioning operators set it |
| `TextPosition.PenForgets` | src/gui/TabPage.cpp:3202-3297 | two positions on a line stay different until an operator sets a new one |
| `TextPosition.FollowingTextMoves` | src/gui/TabPage.cpp:3202-3297 | text behind an erased stretch is drawn where it was exactly from the next positioning operator on, unless the stretch ended at the start of its line |
| `TextPosition.ErasedInOneMoves` | src/gui/TabPage.cpp:3208-3250 | for one operator that is: unless its text ended where the line starts |
| `SearchAutomaton.UniqueFirstIsRight` | src/gui/tree.cpp:262-302 | after any text the state is the length of the one prefix matched behind the last match, and matches are reported exactly at the leftmost, non-overlapping occurrences |
| `SearchAutomaton.RightIffFirstIsUnique` | src/gui/tree.cpp:144-302 | the table is built, no search hangs and all matches are right, exactly for patterns whose first character does not come again |
| `SearchAutomaton.FalseMatch` | src/gui/tree.cpp:174-187 | when it comes again behind the second place, a match is reported in a text without the pattern |
| `SearchAutomaton.Hang` | src/gui/tree.cpp:174-187 | when it comes again in the second place, a two-character text hangs the search |
| `SearchAutomaton.HitsInParts` | src/gui/tree.cpp:262-302 | feeding text in pieces reports the same matches |
| `SearchTree.FallTo` | src/gui/tree.cpp:176-186 | the inner loop of the table building follows the fall-back links |
| `SearchTree.Tree.AddState` | src/gui/tree.cpp:171-188 | one more linked state with its fall-back link |
| `SearchTree.Tree.SetPattern` | src/gui/tree.cpp:144-197 | the linked states are those of the automaton of the pattern without blanks and, on request, hyphens |
| `SearchTree.EffectiveIsPattern` | src/gui/tree.cpp:164-170 | nothing is dropped from a pattern exactly when behind its first character there is no blank and, when hyphens are passed over, no hyphen |
| `SearchTree.EffectiveIsKept` | src/gui/tree.cpp:164-170 | a pattern without blanks that does not start with a hyphen is searched as what is left of it when it stands in a text |
| `SearchTree.Tree.Advance` | src/gui/tree.cpp:275-283 | one character takes the automaton's step over the links |
| `SearchTree.Tree.Look` | src/gui/tree.cpp:264-288 | one round of the search loop |
| `SearchTree.Tree.Search` | src/gui/tree.cpp:262-302 | finds the first match behind the last one and stops there, or uses up the token and keeps the state |
| `SearchTree.TokensAreOneText` | src/gui/tree.cpp:249-302 | for a pattern without blanks (and hyphens, when they are passed over) whose first character does not come again: over any tokens, matches are reported exactly where occurrences end in the concatenated text |
| `Containers.Clone` | src/kernel/carray.cc:419-434 | a clone has the same structure, shares no object and belongs to no document |
| `Containers.SetPdf` | src/kernel/carray.cc:106-116 | the document is set on everything below and nothing else |
| `Containers.SetIndiRef` | src/kernel/carray.cc:121-131 | the reference is set on everything below and nothing else |
| `Containers.EraseRemoved` | src/kernel/carray.cc:149-152 | removal by identity equals deletion at the index of an element that occurs once |
| `Containers.InnerSettled` | src/kernel/carray.cc:106-131 | every container inside a tree that carries one document and reference throughout is such a tree itself, at any depth |
| `Containers.OuterSettled` | src/kernel/carray.cc:106-131 | when an edit below it leaves the whole tree in order, a container around the edited one still carries one document and reference throughout, with no object twice |
| `Containers.SpliceOwned` | src/kernel/carray.cc:137-315 | other children below one container concern no other object of the tree |
| `Containers.DelProperty` | src/kernel/carray.cc:137-179 | the element at the index goes, belongs to no document and shares nothing with what stays; the whole tree around the array, at any depth, still carries one document and reference and has no object twice |
| `Containers.AddProperty` | src/kernel/carray.cc:196-252 | a new clone marked like the array is inserted at the position, behind the end it fails; the whole tree around the array, at any depth, still carries one document and reference and has no object twice |
| `Containers.SetProperty` | src/kernel/carray.cc:259-315 | the element at the index is exchanged for a marked clone and leaves the document, right behind the end it is added, further behind it fails; the whole tree around the array, at any depth, still carries one document and reference and has no object twice |
| `Containers.AddEntry` | src/kernel/cdict.cc:227-283 | fails when the name is there, else adds an entry at the end; names stay unique; the whole tree around the dictionary, at any depth, still carries one document and reference and has no object twice |
| `Containers.DelEntry` | src/kernel/cdict.cc:170-221 | removes the entry of the name and only it, or fails; names stay unique, what goes belongs to no document; the whole tree around the dictionary, at any depth, still carries one document and reference and has no object twice |
| `Containers.SetEntry` | src/kernel/cdict.cc:288-356 | changes the entry of the name in place or adds one, everything else is found as before; the whole tree around the dictionary, at any depth, still carries one document and reference and has no object twice |
| `PageAnnots.CPageAnnots.constructor` | src/kernel/cpageannots.cc:133-145 | a page starts with one valid annotation for each reference to a dictionary, in order, and with equal positions when all elements refer to different dictionaries |
| `PageAnnots.CPageAnnots.Consolidate` | src/kernel/cpageannots.cc:275-331 | the first annotation of the old dictionary goes and becomes invalid, one for the new dictionary comes at the end |
| `PageAnnots.CPageAnnots.InsertElement` | src/kernel/cpageannots.cc:444-504 | adding an element keeps the mirror: one valid annotation for each reference to a dictionary, all others invalid |
| `PageAnnots.CPageAnnots.SetElement` | src/kernel/cpageannots.cc:444-504 | so does changing an element |
| `PageAnnots.CPageAnnots.DeleteElement` | src/kernel/cpageannots.cc:444-504 | so does deleting an element |
| `PageAnnots.CPageAnnots.ReplaceAnnots` | src/kernel/cpageannots.cc:510-619 | another Annots entry makes every annotation so far invalid and collects new ones, in order, with equal positions when all elements refer to different dictionaries |
| `PageAnnots.CPageAnnots.Add` | src/kernel/cpageannots.cc:336-396 | adds a new dictionary, its reference at the end of the array and its annotation at the end of the mirror; fails on a malformed entry |
| `PageAnnots.CPageAnnots.Del` | src/kernel/cpageannots.cc:401-436 | deletes the element at the annotation's position; the mirror is in order afterwards exactly when that element was the annotation's own, which runs of add and del keep |
| `PageAnnots.OrderedIsLined` | src/kernel/cpageannots.cc:90-123 | annotations collected from an array of references to different dictionaries stand at their positions |
| `PageAnnots.DelFirst` | src/kernel/cpageannots.cc:401-436 | on every page whose array starts with anything but a reference to a dictionary, deleting the first annotation removes the wrong element and leaves an invalid annotation listed |
| `PageAnnots.Stranded` | src/kernel/cpageannots.cc:401-436 | such a page, collected from an array of two elements |
| `NameTree.GetDest` | src/gui/TabPage.cpp:3545-3606 | the explicit stack finds the first pair with the name among those not pruned, in tree order, and ends |
| `NameTree.PruningIsHarmless` | src/gui/TabPage.cpp:3558-3566 | where limits bound the names below, pruning does not change what is found |
| `NameTree.Hidden` | src/gui/TabPage.cpp:3558-3566 | in a tree with a node, at any depth, that does not keep to its limits, the search misses a name of the tree |
| `NameTree.ScanIffBounded` | src/gui/TabPage.cpp:3558-3566 | in a tree whose names are all different, every name is found as in a scan of all leaves exactly when the limits of every node, at any depth, bound the names below it |
| `NameTree.ExcludedIffOutside` | src/gui/TabPage.cpp:3558-3566 | a subtree is passed over exactly when it has limits and the name is not within them |
| `NameTree.FirstDifferenceDecides` | src/gui/TabPage.cpp:3558-3566 | names are in order by the first character that differs, a proper prefix first |
| `NameTree.OneComesFirst` | src/gui/TabPage.cpp:3558-3566 | two different names are in order in exactly one way |
| `NameTree.FirstIsLeast` | src/gui/TabPage.cpp:3568-3590 | the value found is that of the first pair with the name |
| `NameTree.FindsExactly` | src/gui/TabPage.cpp:3545-3606 | in a tree as the standard has it, with names in order and limits that are the first and last name below, exactly the pairs of the tree are found |
| `PageAttributes.InheritedAttributes.Fill` | src/kernel/cpageattributes.cc:49-155 | each missing attribute gets the nearest well-typed value up the tree, else the default, in spite of the shared counter; fails exactly when a bad parent entry is reached with something missing |
| `PageAttributes.CPageDict.SetInheritable` | src/kernel/cpageattributes.cc:162-183 | the values in force are added to the page where it has no entry |
| `PageAttributes.CompletedKeepsValues` | src/kernel/cpageattributes.cc:162-183 | that keeps every value in force, is idempotent, and makes the page independent of its ancestors but for entries of the wrong type |
| `PageAttributes.DefaultsAre` | src/kernel/cpageattributes.cc:100-155 | without an entry anywhere there are no resources, no rotation, and a page of 612 by 792 units shown whole |
| `Delinearizators.Delinearizator.FillObjectList` | src/kernel/delinearizator.cc:95-137 | one batch is the next stretch of objects, bounded by a positive limit; a smaller one means that nothing is left; it fails at the first object that cannot be fetched |
| `Delinearizators.Delinearizator.WriteAll` | src/kernel/pdfwriter.cc:925-941 | batches of any limits write all objects, in order and once each, exactly when all can be fetched; otherwise what is written are whole batches from the first object on |
| `Delinearizators.ObjectsAreAll` | src/kernel/delinearizator.cc:95-137 | the objects listed are exactly the entries neither free nor the linearization dictionary, in order, once each |
| `Delinearizators.ListedExactly` | src/kernel/delinearizator.cc:95-137 | an object is listed exactly when its entry is not free and it is not the linearization dictionary, with the generation of its entry or zero in an object stream |
| `PageFonts.NewFontName` | src/kernel/cpagefonts.cc:113-124 | the loop ends after at most one try more than there are fonts, with the first unused name |
| `PageFonts.UsedNames` | src/kernel/cpagefonts.cc:113-124 | no more generated names are in use than there are fonts, as they are all different |
| `PageFonts.FontNameReads` | src/kernel/cpagefonts.cc:113-124 | a generated name is the prefix followed by the digits of its number |
| `StreamBuffer.BufferFromStream` | src/kernel/cobject2xpdf.cc:894-931 | exactly the bytes of the stream, within a capacity at most twice what is needed, with fewer than two copies a byte; nothing exactly when that capacity cannot be had |

## Left out

- StreamRoundTrip.SaveThenReload: leaves out an operator named R behind two integers, which reads as a reference, inline images with an EI in their data or with names that need codes, and what the other printability conditions exclude.
- ObjectReader.GetImage: a BI that the end of the streams cuts off before its ID raises the object exception here, where the code makes an operator without an image that cannot be printed; an ID inside an array or dictionary ends the entries, where the code skips one character and goes on; the character behind an ID outside an image is not skipped, which for the space the editor prints makes no difference; commands that only begin with BI, on which the code trips a debug assertion, are like any unknown operator.
- ContentStream.ImageToString: takes the names of an image's entries to be different, as adding one twice fails.
- The first parse of a page stops early at the editor's own change tag or at the end of a stream; the model parses as every later parse does.
- Owners, documents, references and observers of operators, bounding boxes and notifications after a save are bookkeeping around the modelled edits; a document that refuses changes is one flag.
- Operands left over at the end of a stream trip a debug assertion in the code; the model reports them as unread.
- Operators are changed in place when text is cut or replaced; here an operator's own contents are fixed once it is made, so cutting the text of an erased selection is not modelled, only the operators around it.
- TextErase.EraseInOne: states the text line matrix and the leading of every operator; the position inside a line is in `TextPosition.dfy`, where the advance of shown text is a function of its operator alone.
- TextErase.EraseAcross: likewise; and it is stated for operators that show text without moving to a new line.
- ImageDrag.DragMovesTheImage: reals are exact, and quarter turns where the code uses an approximate pi; when the moved matrix is clamped, the states behind the image are not described.
- MatrixScan.GetInvertMatrix: gives no inverse for a singular matrix, where the code divides by zero.
- NameReading.NamesThatSurvive: characters are taken to be bytes, as in the code; a name with a wider character is not plain.
- Encryption and streams inside objects are not part of this model of the lexer and parser.
- SearchTree.Tree.SetPattern: requires a trimmed, non-empty pattern whose table can be built; case folding, backward search and regular expression states are not modelled. With blanks or hyphens inside a pattern the code trips a debug assertion.
- SearchTree.Tree.Search: requires that the text does not hang the search; the begin and token counters are not modelled; for a pattern with blanks inside, whose states have gaps in their numbers, computing the begin can run past the last state in the code.
- Containers: properties other than simple ones, arrays and dictionaries, modes, change notification and the refusal of read-only documents are left out; dictionary edits are stated for dictionaries with unique names, as the editor's own edits build them.
- PageAnnots.CPageAnnots.Del: direct dictionaries in the array are left out: the code lists them when it collects annotations but not when they are added later.
- NameTree.GetDest: references between nodes are taken as followed, so the tree is finite; a missing name, where the code asserts, gives no value.
- PageAttributes: values are taken as dereferenced, and ancestors are values, as only the page itself is written to.
- Delinearizators.Delinearizator.FillObjectList: fetching an object succeeds or fails by its number; the objects themselves are not modelled.
- StreamBuffer.BufferFromStream: requires a positive first length, as the doubling of the code does; a block can be had exactly up to a given size.
- Integer widths: the lexer's accumulator wraps at 32 bits; elsewhere integers are unbounded.
- The user interface, drawing, configuration, file saving and revisions, annotation initialisers, page display and scripts are not modelled.
