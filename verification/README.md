# Verified model of the trading repository's core

The repository moves JSON text between a price store, a broadcaster and its aggregators. This
project models, in Dafny 4.11:

- the JSON library every message goes through (`Dependencies/json/include/json.h`): the value
  class with its copies, moves and in-place updates, the printer `dump`, and the recursive parser;
- asio's growable FIFO buffer (`basic_streambuf`);
- the price store behind its HTTP routes, and the `Price` codec it uses;
- the broadcaster's pair-batching and its registry of aggregator connections.

`dafny verify dfyconfig.toml` checks all of it.

## How the model is laid out

| file | content |
|---|---|
| `Chars.dfy`, `Numbers.dfy`, `OrderedMap.dfy`, `Escapes.dfy` | `isspace`, reading `str[i]`, `std::to_string`, `std::stoll`, `std::stod`, `std::map`, `json_escape` |
| `JsonValue.dfy` | JSON values, the printed text, six-decimal rounding, canonical values |
| `JsonGrammar.dfy` | each `parse_*` as a function of text and offset |
| `JsonParser.dfy` | each `parse_*` as it runs, in loops over an offset, computing that function |
| `JsonDoc.dfy` | written documents with every choice of layout, and the main induction |
| `JsonLayout.dfy`, `JsonRoundTrip.dfy` | the layout of `dump`; printing and parsing as inverses |
| `JsonExponent.dfy` | the exponent branch of `parse_number` |
| `JsonNumerals.dfy` | the number a numeral stands for, and where documents keep it |
| `JsonMalformed.dfy` | what the parser makes of texts that go wrong |
| `JsonBounds.dfy` | texts that are read within their bounds, past their end, and as nothing |
| `JsonTidy.dfy` | that no message written out in full is among those the scan for bounds rejects |
| `JsonCuts.dfy` | messages cut short, and which of them are read past their end |
| `JsonHeap.dfy` | the class `JSON` on the heap |
| `JsonPaths.dfy`, `JsonStatements.dfy` | chains of `operator[]`; statements, and what every part of every object reads after them |
| `JsonEdits.dfy` | runs of statements over any number of objects on the heap |
| `JsonDump.dfy` | `dump` on the heap |
| `StreamBuf.dfy` | `basic_streambuf` |
| `Price.dfy`, `PriceStore.dfy` | the codec and the store |
| `EndPoint.dfy` | the table of connections |
| `BroadcasterState.dfy` | the broadcaster as a state machine: registry, sends and batching |
| `Broadcaster.dfy` | its handlers on the objects they update, and whole runs |

Conventions:

- A parse ends as `Done(value, offset)`, as `Throws` (a `std::exception` of a conversion), or as
  `OutOfBounds` when it reads beyond the terminating NUL. What the program does after such a read
  is undefined, so methods that parse a body require that it does not happen. `Tidy` is a test that
  a caller can make on the text beforehand; it is sufficient.
- A `double` is a sign and an exact magnitude, so zero keeps its sign. `Rounded` is a value with
  its floats at six decimals, which is what `std::to_string` prints.
- A value is canonical when its object keys are in order and could have come from `json_escape`.
  `parse_object` stores keys escaped and `dump` prints them as stored, so these are the keys that
  survive.
- A `JSON` object on the heap is described by the tree of objects it owns (`Shape`). `Owns` says
  that the heap holds that tree and that no object occurs in it twice; `Pool` says the same of all
  objects in play together.

## What the proofs show about the code

- A number is accepted only before white space, `,`, `]` or `}`. So a bare number never loads back
  (`LoadInvertsDumpIff` gives the exact condition).
- A message without exponents cut short, anywhere and whatever its layout, is read out of bounds
  exactly if what arrived ends in a string, but not in a `\u` escape, or starts with a bracket and ends outside
  strings with a number (`CutMessageOverrunsIff`). `{"a` is such a text; `["\u12` is not, and loads
  as an empty array.
- Other texts that break off in that way are read out of bounds too, with exponents and at any depth
  of complete elements (`OpenTextOverruns`). So are `[1e]` and `1e`, because the exponent branch
  passes over a character unseen. A text in which every string is closed, no number touches a quote,
  every `e` after a number has an exponent, and the last character belongs to no number is always
  read within its bounds, well-formed or not (`TidyTextsAreReadInBounds`).
- Ill-formed texts still load, in ways of their own: a wrong separator empties the array it stands
  in, but an object keeps the members before it; a comma before `]` adds a Null; one before `}`
  leaves the parser in front of the brace; a bad `\u` escape empties its string; an unknown escape
  is a lone backslash (`JsonMalformed`).
- The exponent branch passes over one character too many. It reads the exponent RFC 8259 (section
  6) means exactly if there is a plus sign or a leading zero before other digits
  (`ExponentIsExactIff`); before a follower, `1e5` is a conversion error and `1e15` is read as ten to
  the fifth.
- A failed `prepare` has already moved bytes but no position. The documented size invariant holds;
  the contents survive exactly if they repeat themselves at the distance of the move
  (`SmearedIff`), and a new buffer reaches a state where they do not (`FailedPrepareLosesData`). A
  refused put changes nothing (`Overflow`).
- JSON objects behave like values (`JsonEdits.Run`): whatever objects a statement reads and writes,
  also the same one twice, no two objects ever share anything. The order in which C++ evaluates the
  operands of a statement shows neither in what it assigns nor in whether it is defined, unless it
  is an append whose argument is copied first (`EveryStatementDoes`, `DefinedIff`).
- `fromJson` throws a string literal for text that loads as Null; `handlePostPrice` does not catch
  it. The store is unchanged, and the exception leaves `onHttp`. An empty body does it; `UncaughtIff`
  says which bodies do.
- A timestamp of 2^63 or more is printed as a negative number and read back unharmed.

## Model

| member | source | states |
|---|---|---|
| Chars.ClassMembers | Dependencies/json/include/json.h:529-587 | which characters count as white space, digits, hexadecimal digits, part of a number, and followers of one, listed |
| Escapes.JsonEscape | Dependencies/json/include/json.h:28-42 | the loop writes the escaped text of the whole string |
| Escapes.EscapeTable | Dependencies/json/include/json.h:28-42 | the seven rewritings of `json_escape`, and that every other character stays |
| Escapes.KnownEscapes | Dependencies/json/include/json.h:518-526 | what each of the eight known escapes stands for, and that there is no other one |
| Escapes.EscapedIffImage | Dependencies/json/include/json.h:28-42 | a text is one `json_escape` can produce exactly if every backslash starts one of its escapes and no special character is raw |
| Escapes.EscapeIsIdentityIff | Dependencies/json/include/json.h:28-42 | `json_escape` is the identity exactly on strings without one of the seven special characters |
| JsonRoundTrip.StringTextIsInverted | Dependencies/json/include/json.h:513-549 | within any text, quote, escaped string, quote parses to the string and stops just past the closing quote |
| JsonRoundTrip.EscapeIsInjective | Dependencies/json/include/json.h:28-42 | two strings with the same escaped text are the same |
| JsonRoundTrip.IntegerTextIsInverted | Dependencies/json/include/json.h:551-599 | every 64-bit integer's text, before a follower, parses to that Integral and rests on the follower |
| JsonRoundTrip.FloatTextIsInverted | Dependencies/json/include/json.h:551-599 | every float's text parses to a Floating: the float at six decimals, sign kept, resting on the follower |
| JsonRoundTrip.MillionthsSurvive | Dependencies/json/include/json.h:368-371 | a whole number of millionths, of either sign, is its own six-decimal rounding, so it comes back exactly |
| Numbers.IntTextIs | Dependencies/json/include/json.h:371 | an integer prints as its sign if negative, and digits without superfluous zero that have its value |
| Numbers.FloatTextIs | Dependencies/json/include/json.h:369 | a double prints as its sign, a whole part, a point and six digits that together are the millionths it rounds to |
| Numbers.RoundedIsNearest | Dependencies/json/include/json.h:369 | the printed value is within half a millionth, the even neighbour in the middle, with the sign of the double |
| JsonNumerals.DecimalNumeral | Dependencies/json/include/json.h:590-591 | digits with a point are a double with that sign whose magnitude, times ten to the number of digits behind the point, is the number those digits form without it |
| JsonNumerals.LatePointNumeral | Dependencies/json/include/json.h:590-591 | if a minus sign comes before the point, only the digits before it count |
| JsonNumerals.IntegerNumeral | Dependencies/json/include/json.h:596 | digits without a point are their signed value if it fits 64 bits, and the range exception otherwise |
| JsonNumerals.NoNumeral | Dependencies/json/include/json.h:590-596 | without a digit where one has to be: the conversion exception |
| JsonNumerals.ExponentScales | Dependencies/json/include/json.h:590-595 | an exponent multiplies by that power of ten and makes a double of an integer |
| JsonNumerals.DecimalInPlace | Dependencies/json/include/json.h:551-599 | anywhere in a text, before a follower, such a numeral is read as what its digits spell |
| JsonNumerals.DecimalItem | Dependencies/json/include/json.h:484-511 | so it is as any item of an array, however the array is laid out |
| JsonNumerals.DecimalMember | Dependencies/json/include/json.h:448-482 | and as the last member of its name in an object |
| JsonExponent.ExponentNumber | Dependencies/json/include/json.h:568-597 | a number with an exponent converts the exponent digits left after the skipped character, or ends with that conversion's exception |
| JsonExponent.ExponentIsExactIff | Dependencies/json/include/json.h:568-583 | the exponent read is the one written exactly if it has a plus sign or a leading zero before other digits |
| JsonExponent.FirstDigitIsLost | Dependencies/json/include/json.h:568-583 | without a plus sign the first exponent digit is lost: a single digit is a conversion error, of several what is read is short by that digit's value |
| JsonNumerals.FifteenIsReadAsFive | Dependencies/json/include/json.h:568-595 | `[1e15]` loads as an array of ten to the fifth |
| JsonGrammar.ParseNext | Dependencies/json/include/json.h:625-642 | terminates on every text; never ends before its start, at most one past the end and then with Null; anything but Null consumed a character |
| JsonGrammar.ParseArray | Dependencies/json/include/json.h:484-511 | the same progress for arrays, through the recursion |
| JsonGrammar.ParseMember | Dependencies/json/include/json.h:457-479 | a round of the object loop that goes on has strictly advanced within the text |
| JsonGrammar.AfterItem | Dependencies/json/include/json.h:494-508 | a round of the array loop that goes on has strictly advanced past its item |
| JsonGrammar.ParseStringBody | Dependencies/json/include/json.h:516-548 | a string that ends in bounds is a String and consumed at least one character |
| JsonParser.ConsumeWs | Dependencies/json/include/json.h:444-446 | the loop stops at the first non-space at or after the offset |
| JsonParser.ParseObject | Dependencies/json/include/json.h:448-482 | the loop computes the recursive object function, error exits included |
| JsonParser.ParseMember | Dependencies/json/include/json.h:457-479 | one round: key, colon, value, assignment, separator |
| JsonParser.ParseArray | Dependencies/json/include/json.h:484-511 | the loop computes the recursive array function; a bad separator gives an empty array |
| JsonParser.ParseString | Dependencies/json/include/json.h:513-549 | the loop computes the recursive string function: known, unknown and `\u` escapes, unterminated strings |
| JsonParser.CollectHex | Dependencies/json/include/json.h:529-537 | the four characters after `\u` if they are all hexadecimal digits, without reading past the NUL |
| JsonParser.CollectNumber | Dependencies/json/include/json.h:557-567 | the loop collects the longest run of digits, signs and points, and whether it has a point |
| JsonParser.ParseNumber | Dependencies/json/include/json.h:551-599 | collecting, follower test, exponent and conversion compute the number function |
| JsonParser.ParseExponent | Dependencies/json/include/json.h:568-583 | the exponent loop, its out-of-bounds exit and its exceptions |
| JsonParser.Load | Dependencies/json/include/json.h:644-647 | the running parser computes the parse function from offset 0 |
| JsonDoc.BlankIff | Dependencies/json/include/json.h:444-446 | what a document may have at its gaps: any number of the six white-space characters |
| JsonDoc.ParseDoc | Dependencies/json/include/json.h:441-642 | any written document, in place in any text, parses to its meaning and ends exactly at its end, in bounds |
| JsonDoc.ParseAtoms | Dependencies/json/include/json.h:513-549 | any accepted spelling of a string, `\/`, `\u` and unknown escapes included, is read to its meaning |
| JsonDoc.ParseArrayDoc | Dependencies/json/include/json.h:484-511 | an array with any white space at any gap is read as its items in order |
| JsonDoc.ParseObjectDoc | Dependencies/json/include/json.h:448-482 | an object with any white space at any gap is read as the fold of its member assignments |
| JsonRoundTrip.EveryLayoutIsReadAlike | Dependencies/json/include/json.h:444-549 | layout independence: within any text the value read depends only on the meaning of the document |
| JsonLayout.LayoutText | Dependencies/json/include/json.h:337-378 | the printed text of a canonical value is the text of one layout, for every depth and tab |
| JsonLayout.LayoutMeaning | Dependencies/json/include/json.h:337-378 | that layout is well-formed and means the value at six decimals, for every depth and blank tab |
| JsonRoundTrip.PrintIsALayout | Dependencies/json/include/json.h:337-378 | some well-formed document has exactly the printed text and means the value at six decimals |
| JsonRoundTrip.ParserInvertsPrinter | Dependencies/json/include/json.h:337-378 | for every canonical value, depth and blank tab, the printed text is read back in place and left at its end, without an out-of-bounds read |
| JsonRoundTrip.ParserInvertsPrinterWithin | Dependencies/json/include/json.h:625-642 | the same between any prefix and suffix, a number needing a follower |
| JsonRoundTrip.LoadIsCanonical | Dependencies/json/include/json.h:457-481 | every text that loads, malformed or not, loads as a canonical value |
| JsonRoundTrip.BareNumberLoadsAsNull | Dependencies/json/include/json.h:584-587 | the printed text of a number alone loads as Null, one past the end |
| JsonRoundTrip.LoadInvertsDumpIff | Dependencies/json/include/json.h:644-647 | `Load(dump(v))` is v at six decimals, whole text consumed, exactly if v is canonical and not a number |
| JsonRoundTrip.ReprintIsStable | Dependencies/json/include/json.h:337-378 | for every text that loads, loading and printing again changes nothing more exactly if it did not load as a number |
| JsonRoundTrip.LastMemberWins | Dependencies/json/include/json.h:457-481 | in any object text the last member whose key spells the same string gives the value |
| JsonRoundTrip.MemberOrderIsIrrelevant | Dependencies/json/include/json.h:347-351 | permuting members with distinct keys, under any layout, changes neither the loaded value nor its print |
| JsonMalformed.BadArraySeparator | Dependencies/json/include/json.h:504-507 | behind any items, an item followed by neither a comma nor `]` makes the whole array empty, and the parser stops in front of what it found |
| JsonMalformed.TrailingComma | Dependencies/json/include/json.h:494-503 | a comma before `]` adds a Null |
| JsonMalformed.BadObjectSeparator | Dependencies/json/include/json.h:475-478 | a member followed by neither a comma nor `}` ends the object with the members read so far, that one included |
| JsonMalformed.TrailingCommaInObject | Dependencies/json/include/json.h:458-463 | a comma before `}` ends the object with the members read so far, in front of the brace |
| JsonMalformed.MissingColon | Dependencies/json/include/json.h:458-463 | a key without its colon ends the object with the members before it |
| JsonMalformed.BadUnicodeEscape | Dependencies/json/include/json.h:527-537 | a `\u` without four hexadecimal digits makes the whole string empty, and the parser stops in front of the `u` |
| JsonMalformed.UnfollowedNumber | Dependencies/json/include/json.h:584-587 | a number before anything but its followers is Null, and one character more is consumed |
| JsonMalformed.NothingStarts | Dependencies/json/include/json.h:601-641 | a misspelt word or a character that starts nothing is Null, and nothing is consumed |
| JsonMalformed.SlashIsRead | Dependencies/json/include/json.h:521 | the text `"\/"` loads as a slash |
| JsonMalformed.UnknownEscapeIsRead | Dependencies/json/include/json.h:540 | the text `"\x"` loads as a lone backslash |
| JsonMalformed.UnicodeEscapeIsRead | Dependencies/json/include/json.h:527-539 | the text `"\u00e9"` loads as those six characters |
| JsonBounds.TidyTextsAreReadInBounds | Dependencies/json/include/json.h:441-642 | a text with closed strings, no number next to a quote, digits in every exponent, and no number at its end is read within its bounds, malformed or not |
| JsonTidy.WrittenMessagesAreTidyIff | Dependencies/json/include/json.h:441-642 | a well-formed message without exponents passes that scan exactly if its last character belongs to no number |
| JsonBounds.ClosedString | Dependencies/json/include/json.h:513-549 | a string whose closing quote is in the text is read in bounds, up to it or to the `u` of a bad escape |
| JsonBounds.OpenTextOverruns | Dependencies/json/include/json.h:448-599 | a text that breaks off in a number, an exponent, a key or a string, just after a backslash included, but not in a `\u` escape, is read out of bounds at any depth of complete elements; a number that stands alone ends one past the text as Null |
| JsonBounds.BrokenOffTexts | Dependencies/json/include/json.h:644-647 | loading one of those texts reads out of bounds |
| JsonBounds.NumberBeforeTheEnd | Dependencies/json/include/json.h:584-587 | `[1` is read out of bounds |
| JsonBounds.ExponentBeforeTheBracket | Dependencies/json/include/json.h:568-583 | `[1e]` is read out of bounds |
| JsonCuts.CutItem | Dependencies/json/include/json.h:441-642 | in place, a document cut anywhere either makes the parser give up in bounds before something no caller goes on at, or runs out of the text, exactly as one scan of the text tells |
| JsonCuts.CutMessageOverrunsIff | Dependencies/json/include/json.h:644-647 | loading a document of which the first n characters arrived, for any document without exponents, layout and n, reads out of bounds if and only if they end in a string but not in a `\u` escape, or start with a bracket and end outside strings with a number |
| JsonCuts.CutInKey | Dependencies/json/include/json.h:513-549 | `{"a` is read out of bounds |
| JsonCuts.CutAfterBackslash | Dependencies/json/include/json.h:513-549 | a quote and a backslash are read out of bounds |
| JsonCuts.CutInUnicodeEscape | Dependencies/json/include/json.h:527-539 | `["\u12` is read in bounds, as an empty array |
| JsonBounds.LoadsAsNullIff | Dependencies/json/include/json.h:601-642 | a text loads as Null exactly if its first visible character starts nothing, or starts a word that is not there or a number that is not followed |
| OrderedMap.OrderOfAssignmentsIsIrrelevant | Dependencies/json/include/json.h:235-237 | assignments to distinct keys build the same map in any order |
| OrderedMap.Extensional | Dependencies/json/include/json.h:347-351 | two maps that answer every lookup alike iterate alike |
| OrderedMap.LessIff | Dependencies/json/include/json.h:347 | keys are ordered by the first character that differs, a proper prefix first, which is the order `std::map` iterates in |
| JsonValue.MembersInARow | Dependencies/json/include/json.h:345-351 | printed members stand in that order, separated by a comma and a line break |
| JsonValue.ItemsInARow | Dependencies/json/include/json.h:357-361 | printed items stand in order, separated by a comma and a blank |
| JsonValue.Indentation | Dependencies/json/include/json.h:338-352 | with the default tab members are indented by twice the depth, and the closing brace by two less |
| JsonValue.TwoCharactersOff | Dependencies/json/include/json.h:352 | whatever the tab, the closing brace is indented by two characters less |
| JsonValue.NestedText | Dependencies/json/include/json.h:337-378 | the whole text of an object in an array in an object, with booleans, a negative number and null |
| JsonValue.GetAfterTouch | Dependencies/json/include/json.h:235-237 | `operator[]` with a key may add a Null member but changes no member's value |
| JsonHeap.JSON.SetType | Dependencies/json/include/json.h:383-400 | same type: nothing changes; otherwise the content is the default of the new type |
| JsonHeap.JSON.Copy | Dependencies/json/include/json.h:123-143 | the copy is a tree of new objects with the value of the source |
| JsonHeap.JSON.CopyAll | Dependencies/json/include/json.h:130-134 | copying a range of elements gives disjoint new trees with the same values |
| JsonHeap.JSON.Assign | Dependencies/json/include/json.h:145-167 | from a source that does not overlap, or onto a target with nothing to delete, the target gets the source's value in new objects; a source that does not overlap is intact |
| JsonHeap.JSON.MoveAssign | Dependencies/json/include/json.h:114-121 | the target takes over the source's value and nodes, and the source is Null; a scalar moved onto itself is Null |
| JsonHeap.JSON.Moved | Dependencies/json/include/json.h:109-112 | the new object has the source's value and nodes, and the source is Null |
| JsonHeap.JSON.AssignScalar | Dependencies/json/include/json.h:215-233 | assigning a bool, number or string makes the object exactly that value |
| JsonHeap.JSON.Index | Dependencies/json/include/json.h:235-237 | the reference returned is the member of that key, added as Null in key order if it was missing; other members keep their values |
| JsonHeap.JSON.IndexAt | Dependencies/json/include/json.h:239-243 | the reference returned is the item of that index, after padding with Nulls |
| JsonHeap.JSON.AppendCopy | Dependencies/json/include/json.h:205-208 | a copy of the argument becomes the last item, also if the argument is the object itself |
| JsonPaths.KeyReads | Dependencies/json/include/json.h:235-237 | `v[key]` refers to the member of that name if `v` is an object that has one, and otherwise to Null |
| JsonPaths.KeyWrites | Dependencies/json/include/json.h:235-237 | after `v[key] = w` the members are the ones before, none if `v` was no object, but for that one |
| JsonPaths.ItemReads | Dependencies/json/include/json.h:239-243 | `v[i]` refers to the i-th item if `v` is an array that has one, and otherwise to Null |
| JsonPaths.ItemWrites | Dependencies/json/include/json.h:239-243 | after `v[i] = w` the items are the ones before, none if `v` was no array, but for that one, and Nulls in between |
| JsonPaths.PathsCompose | Dependencies/json/include/json.h:235-243 | a chain of `operator[]` reads and writes as one step after the other |
| JsonPaths.OneStep | Dependencies/json/include/json.h:235-243 | a chain of one `operator[]` is that `operator[]`, and of none the object itself |
| JsonPaths.GetAfterSet | Dependencies/json/include/json.h:235-243 | what is assigned through a chain of `operator[]` is found through that chain |
| JsonPaths.ApartIff | Dependencies/json/include/json.h:235-243 | two chains stand apart exactly if they part at some step |
| JsonPaths.GetApart | Dependencies/json/include/json.h:235-243 | an assignment through one chain leaves every part that stands apart from it as it was |
| JsonPaths.TouchIsIdle | Dependencies/json/include/json.h:235-243 | following a chain to what is there already changes nothing |
| JsonPaths.BothEvaluated | Dependencies/json/include/json.h:235-243 | evaluating two chains on one object: both parts are there afterwards exactly if the chains, where they part, both use a key or both an index; then each reads as before, with what the other adds below it |
| JsonStatements.EveryStatementDoes | Dependencies/json/include/json.h:109-243 | what every part reads after a statement, from the values before it: a scalar assigned, a copied or moved value, the old items followed by the argument, the declared object, Null where a value was moved from; every part that the operands do not reach is unchanged |
| JsonStatements.RunDoes | Dependencies/json/include/json.h:109-243 | after a run every part reads so from what the run made of the values before its last statement |
| JsonStatements.DefinedIff | Dependencies/json/include/json.h:109-243 | which statements C++ defines, by the operands as they stand before it, whatever the order of evaluation |
| JsonEdits.Locate | Dependencies/json/include/json.h:235-243 | a chain of `operator[]` refers to the right part of the owned tree, adds what is missing, and moves no object that was and still is reachable |
| JsonEdits.DoCopyTo | Dependencies/json/include/json.h:145-167 | copy assignment between any two parts of the objects in play, operands evaluated in either order, does its effect on the values and shares nothing |
| JsonEdits.DoMoveTo | Dependencies/json/include/json.h:114-121 | the same for move assignment |
| JsonEdits.DoAppendTo | Dependencies/json/include/json.h:205-208 | the same for append, of an object or a part of it to itself included, the argument copied after both operands are evaluated |
| JsonEdits.DoAppendCopied | Dependencies/json/include/json.h:205-208 | the same with the argument copied before the target is evaluated |
| JsonEdits.DoDeclareMoved | Dependencies/json/include/json.h:109-112 | an object declared by a move from any part of another takes that part's value and leaves it Null |
| JsonEdits.Run | Dependencies/json/include/json.h:109-243 | value semantics: any run of declarations (by default, copy or move), assignments, moves and appends over any number of objects, reading from one another and from themselves, in any order of evaluation C++14 allows, does to each object what it does to its value, no two share anything, and every part reads as the last statement says |
| JsonEdits.AsIfAlone | Dependencies/json/include/json.h:109-243 | statements that each stay within one object, interleaved in any order, leave every object as its own statements would if it were alone |
| JsonEdits.UnmentionedIsSpared | Dependencies/json/include/json.h:109-243 | a run that does not mention an object meets the condition under which it is left as it was |
| JsonStatements.DifferentObjectsAreDefined | Dependencies/json/include/json.h:145-243 | every assignment, move or append between parts of two different objects is covered |
| JsonStatements.SelfAppendIsDefined | Dependencies/json/include/json.h:205-208 | so is appending an object to itself |
| JsonEdits.CopyThenEdit | Dependencies/json/include/json.h:123-143 | after a copy, any later run, also with parts of either side as sources for the other, leaves the side it only reads as it was |
| JsonEdits.AssignThenEdit | Dependencies/json/include/json.h:145-167 | the same after copy assignment |
| JsonEdits.MoveThenEdit | Dependencies/json/include/json.h:114-121 | after a move the target has the value and the source is Null, each until something other than a read is done to it |
| JsonDump.Dump | Dependencies/json/include/json.h:337-378 | the printing loops over the owned objects write the printed text of the value |
| StreamBuf.BasicStreambuf.constructor | Dependencies/asio-1.28.0/include/asio/basic_streambuf.hpp:131-141 | an empty buffer with ordered positions, also for a cap of 0 |
| StreamBuf.BasicStreambuf.Size | Dependencies/asio-1.28.0/include/asio/basic_streambuf.hpp:158-161 | the size never exceeds the cap |
| StreamBuf.BasicStreambuf.Reserve | Dependencies/asio-1.28.0/include/asio/basic_streambuf.hpp:308-346 | succeeds exactly if size plus n fits the cap, keeps the data and leaves n writable cells; on failure the positions stay and the data is smeared as stated |
| StreamBuf.BasicStreambuf.MoveDown | Dependencies/asio-1.28.0/include/asio/basic_streambuf.hpp:325 | the overlapping move brings the bytes down and leaves the rest |
| StreamBuf.BasicStreambuf.Prepare | Dependencies/asio-1.28.0/include/asio/basic_streambuf.hpp:214-219 | fails exactly if size plus n exceeds the cap; then the contents survive exactly if they repeat at the distance of the move |
| StreamBuf.SmearedIff | Dependencies/asio-1.28.0/include/asio/basic_streambuf.hpp:322-340 | what a failed `reserve` has moved reads as before exactly under that condition |
| StreamBuf.FailedPrepareLosesData | Dependencies/asio-1.28.0/include/asio/basic_streambuf.hpp:322-340 | on a new buffer for three bytes, three puts and a read leave 2 and 3, and a failing `prepare(2)` turns them into 3 and 3 |
| StreamBuf.BasicStreambuf.Commit | Dependencies/asio-1.28.0/include/asio/basic_streambuf.hpp:233-238 | appends the first n bytes of the output sequence, or all of it |
| StreamBuf.BasicStreambuf.Consume | Dependencies/asio-1.28.0/include/asio/basic_streambuf.hpp:247-254 | drops the first n bytes, or all of them |
| StreamBuf.BasicStreambuf.Underflow | Dependencies/asio-1.28.0/include/asio/basic_streambuf.hpp:263-274 | returns the first byte exactly if there is one, and changes no data |
| StreamBuf.BasicStreambuf.Overflow | Dependencies/asio-1.28.0/include/asio/basic_streambuf.hpp:283-306 | fails exactly if the buffer is full, and then changes nothing; otherwise appends exactly its byte, through both growth branches |
| StreamBuf.BasicStreambuf.ReadSizeHelper | Dependencies/asio-1.28.0/include/asio/basic_streambuf.hpp:353-359 | no subtraction underflows; preparing the result cannot fail; of what is asked for it is as much as fits under the cap, but no more than 512 bytes or what the vector takes without growing, whichever is more |
| StreamBuf.PutStep | Dependencies/asio-1.28.0/include/asio/basic_streambuf.hpp:283-306 | a put appends its byte below the cap and is refused at it; on a full put area it moves the data down and makes room for 128 bytes, as far as the cap allows |
| StreamBuf.ReceiveStep | Dependencies/asio-1.28.0/include/asio/basic_streambuf.hpp:214-238 | prepare, write and commit append the bytes if what is prepared fits under the cap, moving the data down if the room is too small, and smear otherwise |
| StreamBuf.TakeStep | Dependencies/asio-1.28.0/include/asio/basic_streambuf.hpp:247-274 | a consume takes its bytes off the front, or all there are; a read takes one |
| StreamBuf.SmearedAt | Dependencies/asio-1.28.0/include/asio/basic_streambuf.hpp:322-340 | the data after a refused prepare, byte by byte |
| StreamBuf.NextConserves | Dependencies/asio-1.28.0/include/asio/basic_streambuf.hpp:192-346 | an operation keeps the law that what came in is what went out followed by what is there, exactly if it is not a refused `prepare` that loses |
| StreamBuf.QueueConserves | Dependencies/asio-1.28.0/include/asio/basic_streambuf.hpp:192-346 | the law holds throughout a run exactly if no operation of it loses |
| StreamBuf.QueueKeepsCount | Dependencies/asio-1.28.0/include/asio/basic_streambuf.hpp:192-346 | no run loses or gains a number of bytes, refused operations included |
| StreamBuf.RemovedIsRead | Dependencies/asio-1.28.0/include/asio/basic_streambuf.hpp:192-274 | if nothing is consumed unread, what leaves the queue over a run is what the reads return, in order |
| StreamBuf.Run | Dependencies/asio-1.28.0/include/asio/basic_streambuf.hpp:192-346 | the buffer refines that queue, positions, verdicts and the bytes its reads return included, over any sequence of puts, prepare-write-commits, consumes and reads, going on after refused ones, and conserves its bytes if none loses |
| PriceCodec.Price.ToJsonObject | TradingCommon/Price.cpp:26-35 | the five assignments build the object of the five fields |
| PriceCodec.QuoteMembersInOrder | TradingCommon/Price.cpp:26-35 | the members in the order they are written: price, quantity, symbol, symbolName, timestamp, the last one negative from 2^63 on |
| PriceCodec.QuoteText | TradingCommon/Price.cpp:20-35 | the text of every price, line by line |
| PriceCodec.Price.FromJson | TradingCommon/Price.cpp:37-50 | the fields become those of the loaded value, or stay as they were if it does not load |
| PriceCodec.ObjectIsDecoded | TradingCommon/Price.cpp:37-50 | from any object, however it is written, each field is what the last member of its name says: a double price as it is, an integral one as that number, integers modulo 2^32 and 2^64, strings escaped, and zero or empty if it says nothing of that kind |
| PriceCodec.OtherValuesGiveNothing | TradingCommon/Price.cpp:37-50 | a text that loads as something other than an object or Null gives empty fields |
| PriceCodec.CodecRoundTrip | TradingCommon/Price.cpp:20-50 | every price decodes from its own text, with strings escaped, price at six decimals, quantity and timestamp unharmed |
| PriceCodec.CodecIsExactIff | TradingCommon/Price.cpp:20-50 | the codec returns exactly the price it was given if and only if its strings need no escape and its price is in millionths |
| PriceStore.StorageHttpServer.OnHttp | StorageApi/StorageHttpServer.cpp:20-47 | routing and handlers compute one step of the store and keep its invariant |
| PriceStore.StorageHttpServer.HandlePostPrice | StorageApi/StorageHttpServer.cpp:114-138 | 404 for an unknown id, 500 for a conversion error, an uncaught literal for Null, otherwise the price is stored under the table's names |
| PriceStore.StorageHttpServer.Serve | StorageApi/StorageHttpServer.cpp:20-138 | after any run from an empty store the prices are the replay of the log |
| PriceStore.RespondKeepsInvariant | StorageApi/StorageHttpServer.cpp:114-138 | every key is a known symbol and equals the stored id, and the stored name is the table's, after every request |
| PriceStore.ReplayKeepsInvariant | StorageApi/StorageHttpServer.cpp:20-138 | the same in every reachable state |
| PriceStore.OnlyPostAndDeleteChange | StorageApi/StorageHttpServer.cpp:20-138 | a DELETE of `/api/prices` empties the store, an accepted POST puts its price under its id, and every other request leaves the store as it was |
| PriceStore.DeleteClears | StorageApi/StorageHttpServer.cpp:41-43 | `DELETE /api/prices` empties any store, whatever its body, and answers 200 |
| PriceStore.UnroutedIff | StorageApi/StorageHttpServer.cpp:20-47 | a request is taken by no handler exactly if its method and address are none of the six |
| PriceStore.PriceIsShownIffStored | StorageApi/StorageHttpServer.cpp:87-106 | 404 with its reason for an unknown id and for a known one without a price, otherwise the text of the stored price; the store is unchanged |
| PriceStore.RefusedPosts | StorageApi/StorageHttpServer.cpp:114-138 | 404 for an unknown id and 500 for a conversion error; the store is unchanged |
| PriceStore.StoreRefinesLog | StorageApi/StorageHttpServer.cpp:76-138 | an id has a price exactly if an accepted POST for it came after the last DELETE, and it is the price of the last one |
| PriceStore.PostIsAccepted | StorageApi/StorageHttpServer.cpp:114-138 | posting the text of any price for a known id is accepted and stores it at six decimals under the table's names |
| PriceStore.PostThenGet | StorageApi/StorageHttpServer.cpp:87-133 | after a POST and any requests that neither delete nor overwrite it, GET returns a body that decodes to the posted price, quantity and timestamp under the table's names |
| PriceStore.PostedWithCleanTable | StorageApi/StorageHttpServer.cpp:128-133 | if the table's id and name need no escape they come back as they are |
| PriceStore.PostedObjectIsServed | StorageApi/StorageHttpServer.cpp:87-133 | a POST of any object, however it is written, stores what its fields say under the id and name of the table, touches no other id, and GET returns it |
| PriceStore.WholePriceIsServed | StorageApi/StorageHttpServer.cpp:87-133 | an integral price comes back from GET as exactly that number |
| PriceStore.ListingShowsTheStore | StorageApi/StorageHttpServer.cpp:76-85 | the listing loads as one item per stored price, in key order, each decoding to that price |
| PriceStore.ListingIsInOrder | StorageApi/StorageHttpServer.cpp:76-85 | after any run the listing names every id that has a price once, in the order of the keys by their first different character |
| PriceStore.ListingShowsTheSymbols | StorageApi/StorageHttpServer.cpp:49-58 | the listing loads as one item per symbol, in key order, with its id and name |
| PriceStore.SymbolIsShownIffKnown | StorageApi/StorageHttpServer.cpp:60-74 | 200 with id and name exactly for known ids, 404 otherwise; the store is unchanged |
| PriceStore.TidyLogsAreInBounds | StorageApi/StorageHttpServer.cpp:114-138 | any log with tidy bodies, malformed ones included, meets the precondition of the store |
| PriceStore.CutBodyIsInBoundsIff | StorageApi/StorageHttpServer.cpp:114-138 | a POST body cut short meets that precondition exactly if it does not end in a string or with a number in the sense above |
| PriceStore.UncaughtIff | StorageApi/StorageHttpServer.cpp:126-137 | the literal escapes exactly from a POST for a known id whose body has nothing to load, and the store is as it was |
| PriceStore.EmptyBodyIsUncaught | StorageApi/StorageHttpServer.cpp:126-137 | it does for an empty body and for `null` |
| EndPoints.EndPoint.Connect | TradingBroadcaster/EndPoint.cpp:35-78 | a connection gets a new id and the table's keys stay exactly the ids given out; a failed one gets -1 and changes nothing |
| EndPoints.EndPoint.Send | TradingBroadcaster/EndPoint.cpp:97-112 | the message goes out exactly if the id is in the table |
| EndPoints.EndPoint.Close | TradingBroadcaster/EndPoint.cpp:80-95 | 0 exactly if the id is in the table and the library reports an error |
| EndPoints.EndPoint.GetMetadata | TradingBroadcaster/EndPoint.cpp:114-122 | a connection exactly for the ids given out |
| Broadcaster.TradingBroadcasterServer.HandleAddAggregator | TradingBroadcaster/TradingBroadcasterServer.cpp:190-227 | makes the state the message means: at most one endpoint with the registered ids, the id of the first connection recorded, and a second, unrecorded connection if there was an endpoint |
| Broadcaster.TradingBroadcasterServer.HandleClearAggregator | TradingBroadcaster/TradingBroadcasterServer.cpp:229-266 | finishes exactly if some registered id closes or has no connection, and then the registry is empty |
| Broadcaster.TradingBroadcasterServer.HandleAddProvider | TradingBroadcaster/TradingBroadcasterServer.cpp:268-291 | the triple loop attempts exactly one send per registered id, in order, and records the symbols |
| BroadcasterState.SymbolsAre | TradingBroadcaster/TradingBroadcasterServer.cpp:277-278 | of the `symbols` array each string is recorded, escaped, and the empty text for anything else in it; nothing without such an array |
| BroadcasterState.StatusMembers | TradingBroadcaster/TradingBroadcasterServer.cpp:303-308 | a reply has its status, and its message only if it is not empty |
| Broadcaster.TradingBroadcasterServer.HandleClearProviders | TradingBroadcaster/TradingBroadcasterServer.cpp:292-301 | the double loop attempts the same one send per registered id |
| Broadcaster.TradingBroadcasterServer.HandleClearPrices | TradingBroadcaster/TradingBroadcasterServer.cpp:112-122 | the same sends, and prices are to be posted again |
| Broadcaster.SendWhereEqual | TradingBroadcaster/TradingBroadcasterServer.cpp:282-288 | the innermost loop sends once for an id of the set |
| BroadcasterState.OneMessagePerConnection | TradingBroadcaster/TradingBroadcasterServer.cpp:280-300 | of the registered ids exactly those that name a connection get the message, once each |
| Broadcaster.Serve | TradingBroadcaster/TradingBroadcasterServer.cpp:190-301 | after any run from a new server its objects show the state the messages make of it, one after the other; it stops only at a message that is read past its end or at a clear that waits forever, and of those tidy messages leave only the clear |
| BroadcasterState.EveryStateIsSound | TradingBroadcaster/TradingBroadcasterServer.cpp:190-301 | in every state a run reaches the keys of the table are the ids given out, and every registered id is one of them or the -1 of failed connects |
| BroadcasterState.OneIdPerAggregator | TradingBroadcaster/TradingBroadcasterServer.cpp:190-266 | the registered ids are exactly as many as the aggregators whose first connection came about since the last clear, and at most one -1 |
| BroadcasterState.ProviderReachesEveryAggregator | TradingBroadcaster/TradingBroadcasterServer.cpp:268-291 | in every such state a provider's message goes once, in order, to every registered id that names a connection, and to no other |
| BroadcasterState.RecordedIff | TradingBroadcaster/TradingBroadcasterServer.cpp:268-278 | a symbol is recorded exactly if some provider's message recorded it while there was an endpoint |
| BroadcasterState.BatchIsOfBroadcasts | TradingBroadcaster/TradingBroadcasterServer.cpp:52-66 | whatever other messages come in between, the batch is that of the broadcasts |
| BroadcasterState.TidyEventsAreReadInBounds | TradingBroadcaster/TradingBroadcasterServer.cpp:268-301 | handling a tidy message never reads past its end |
| Broadcaster.TradingBroadcasterServer.OnBroadcast | TradingBroadcaster/TradingBroadcasterServer.cpp:47-66 | one message: symbols reposted if prices were cleared, the value appended, a full pair sent and the array reset |
| BroadcasterState.BatchingConserves | TradingBroadcaster/TradingBroadcasterServer.cpp:52-66 | loading and flattening what was sent, followed by what is pending, gives the received values in order at six decimals; every text sent is a pair and at most one value waits |
| BroadcasterState.PairsInOrder | TradingBroadcaster/TradingBroadcasterServer.cpp:59-65 | the k-th text sent is the pair of the values 2k and 2k + 1 of the messages that loaded, and the odd one out waits |
| BroadcasterState.LoadedAre | TradingBroadcaster/TradingBroadcasterServer.cpp:59 | if every message loads, those are their values |
| BroadcasterState.UnloadedArePassedOver | TradingBroadcaster/TradingBroadcasterServer.cpp:47-66 | a message that does not load is passed over, wherever it comes |
| Broadcaster.TradingBroadcasterServer.OnBroadcasts | TradingBroadcaster/TradingBroadcasterServer.cpp:52-66 | the handler over a whole subscription keeps that law |

## Left out

- Sockets, WebSocket and HTTP framing, threads, futures, locks, sleeps and console output: each handler is one atomic step; whether a connection can be set up or closed is a parameter; sends are appended to a log.
- IEEE rounding, NaN and infinities: magnitudes are exact reals, so conversions that a `double` would round, overflow or flush to zero are exact here.
- `long` is taken as 64 bits wide, as on the platforms where `std::stol` and `std::stoll` agree.
- Characters are one per byte; only the order of map keys depends on bytes above 127, which compare as unsigned.
- Stack depth, memory exhaustion, and arrays of more than 2^32 items, where the parser's unsigned index would wrap.
- The parser's results as heap objects: `parse_*` builds local objects and moves them out, so `JsonParser` returns their values; what copying, moving and indexing do to objects is in `JsonHeap`.
- JsonHeap.JSON.Assign: where the target has content to delete, sources that overlap it are excluded, because that content is deleted before the source is read.
- JsonHeap.JSON.MoveAssign: the same; and moving an object onto a scalar inside itself, which is defined but makes an object that owns itself.
- JsonEdits.Run: statements C++ leaves undefined are excluded (`AllDefined`): one operand's evaluation destroys what the other refers to, or an assignment deletes what it is about to read. C++14 does not order the operands, so each statement says which comes first. Moving an object onto a scalar inside itself is excluded as for `MoveAssign`.
- PriceStore.Respond: requires that no POST body is read out of bounds, where the program's behaviour is undefined; `TidyLogsAreInBounds` gives a test on the bodies.
- JsonBounds.TidyTextsAreReadInBounds: a sufficient condition. For messages cut short `CutMessageOverrunsIff` is exact; which other malformed texts are read in bounds depends on where the parser gives up.
- What websocketpp does with the string literal that `fromJson` throws.
- The thirteen rows of `StorageApi/Data.h`: the store is modelled for every symbol table whose keys are the ids of its symbols.
- Decoding of `\u` escapes: the code keeps them as text, and so does the model.
- `at`, `hasKey`, `size`, `length`, `ObjectRange`, the initializer-list constructor and variadic `append` of the JSON class.
- The `int` narrowing in `commit` and `consume`, `capacity()` (a parameter of `ReadSizeHelper`), and `basic_streambuf_ref`, which only forwards.
- Broadcaster.TradingBroadcasterServer.HandleClearAggregator: does not claim that every connection is closed, because the loop stops at the first success; a handler that waits forever is a run that does not finish.
- The `latest-price`, `unsubscribe` and status branches of `subscribeMessages`, the dispatch in `on_message`, and `StorageHttpClient`.
- The aggregator, the data provider, `DataProviderMessage` and `Utils`: wrappers over the parts modelled here, or input and output.
