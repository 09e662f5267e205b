# cronedit in Dafny

A model of the core of CronEdit, a Ruby library that edits a user's crontab
through named entries, together with proofs about it. The model covers two
classes in `lib/cronedit.rb`.

`CronEntry` is one crontab entry. It is defined either by a text line such as
`5,35 0-23/2 * * * echo 123`, or by a hash of the keys `minute`, `hour`, `day`,
`month`, `weekday` and `command`. An entry keeps two forms:
- its text (`to_s`);
- its hash (`to_hash`, `[]`).

A text line is kept verbatim. Its five schedule fields are expanded by
`parse_field` into explicit comma lists, and the command is the rest of the
line. A hash is checked for unknown keys, merged into `DEFAULTS`, and written
as six tab-separated values (`to_raw`).

`Crontab` is a batch of named additions and removals held until `commit`.
- `commit` takes the current crontab and drops the removed ids.
- It then assigns the additions.
- It writes the result back as text, with each entry line preceded by a
  `# <id>` comment line.

`commit` returns the merged hash. In it, an id that was added holds its
`CronEntry`, and every other id holds the line `list` read for it.

`parseCrontab` reads such text back into a hash from id to entry line.

The modules are:

| file | module | models |
|---|---|---|
| `cron_types.dfy` | `CronTypes` | entry keys, the exceptions the library raises, `Option` (nil) and `Result` |
| `ruby_text.dfy` | `RubyText` | the Ruby core methods the library relies on: `split`, `join`, `to_i`, `Integer#to_s`, `strip`, `downcase`, `each_line`, `puts` |
| `ruby_hash.dfy` | `RubyHash` | a Ruby `Hash` with string keys: its insertion order, `[]=`, `delete`, `delete_if`, `merge` |
| `field_expander.dfy` | `FieldExpander` | `CronEntry#parse_field` |
| `entries.dfy` | `Entries` | `CronEntry`: `DEFAULTS`, `WDAY`, `initialize`, `to_s`, `to_hash`, `[]`, `to_raw`, `parseTextDef`, `parse_timedate` |
| `crontabs.dfy` | `Crontabs` | `Crontab`: `initialize`, `add`, `remove`, `rollback`, the merge and the writing of `commit`, `parseCrontab` |

The code that works step by step is modelled imperatively:
- `Crontab` is a class whose methods update the pending additions and removals.
- `commit`'s write loop is a method with a loop, proved against a specification function.
- `parseCrontab`'s line loop is a method with a loop, proved against a specification function.

The expression-like code is modelled as functions with lemmas. This covers `parse_field`, `parse_timedate`, `parseTextDef`, `to_raw` and the key check of `initialize`.

The model follows the code as written. In particular:
- `parse_field` neither sorts nor removes repeated values (`"35,5,5"` stays `35,5,5`).
- A step counts from the domain's low end, not from the range's start (`"1-9/2"` gives `2,4,6,8`).
- A single value is not checked against the domain (minute `"99"` is accepted).
- `WDAY` spells Saturday `sut`, so `sat` is not replaced in the weekday field.
- `add` after `remove` of the same id does not take the id out of the removals. The addition still wins at commit, because the merge drops removed ids from the current crontab only.

## Model

| member | source | states |
|---|---|---|
| `RubyText.SplitOfJoin` | lib/cronedit.rb:236-240 | `split` undoes `join` for fields free of the separator whose last field is not empty |
| `RubyText.PiecesOfJoin` | lib/cronedit.rb:236-240 | before trailing empty fields are dropped, splitting a join gives every field back, empty ones included |
| `RubyText.JoinOfPieces` | lib/cronedit.rb:236-240 | joining the fields of a split with the same separator rebuilds the text exactly |
| `RubyText.ToIOfIntToS` | lib/cronedit.rb:239-250 | `n.to_s.to_i == n` for every integer, negative ones included |
| `RubyText.StripIdempotent` | lib/cronedit.rb:147-151 | stripping twice is stripping once |
| `RubyText.StripDropsNewline` | lib/cronedit.rb:146-147 | a line whose only newline is its last character has no newline once stripped |
| `RubyText.Downcase` | lib/cronedit.rb:223 | `downcase` keeps the length and lowers each ASCII capital, position by position |
| `RubyText.EachLineShape` | lib/cronedit.rb:146 | every line `each_line` yields is non-empty, with a newline at most as its last character |
| `RubyText.ConcatOfEachLine` | lib/cronedit.rb:146 | the lines `each_line` yields, put back together, are the text |
| `RubyText.EachLineOfConcat` | lib/cronedit.rb:146 | lines that all end in a newline, except perhaps the last, are what `each_line` yields for their concatenation |
| `RubyText.EachLineOfPuts` | lib/cronedit.rb:99-100 | a one-line string written with `puts` is read back by `each_line` as that line plus its newline |
| `RubyHash.PutValid` | lib/cronedit.rb:72 | `h[k] = v` keeps every key listed once, in insertion order |
| `RubyHash.DeleteAll` | lib/cronedit.rb:92 | `delete_if` keeps exactly the keys not dropped, with their values, and keeps the hash well formed |
| `RubyHash.DeleteAbsent` | lib/cronedit.rb:83 | deleting a key the hash does not hold changes nothing |
| `RubyHash.DeleteNothing` | lib/cronedit.rb:92 | with no removals, `delete_if` changes nothing |
| `RubyHash.PutAllValues` | lib/cronedit.rb:93 | after assigning a list of keys, a key has a value exactly when it had one or was assigned, and an assigned value wins |
| `RubyHash.PutAllKeys` | lib/cronedit.rb:93 | the keys that were new follow the old ones, in the order they were assigned |
| `RubyHash.MergeContents` | lib/cronedit.rb:93 | `merge` holds the keys of both hashes; the argument's values win; the receiver's keys come first, then the argument's new keys in its order |
| `RubyHash.PutAllRebuilds` | lib/cronedit.rb:93 | assigning every pair of a hash, in order, into an empty hash gives that hash back |
| `FieldExpander.Bounds` | lib/cronedit.rb:240-250 | only an empty sub-term and a range `f-l` can fail; `*` and a checked range `f-l` give bounds inside the domain, and a bare value is not checked |
| `FieldExpander.ExpandTerm` | lib/cronedit.rb:238-252 | a sub-term fails only when its bounds fail or on a zero step; otherwise its values are ascending and lie between its bounds |
| `FieldExpander.StepRangeValues` | lib/cronedit.rb:252 | `find_all` keeps exactly the values of `lo..hi` that lie a whole number of steps above the domain's low end, in ascending order |
| `FieldExpander.StepRangeSplit` | lib/cronedit.rb:252 | a range filtered by its step is the concatenation of its two halves, filtered the same way |
| `FieldExpander.UnitStepRange` | lib/cronedit.rb:252 | with step 1 nothing is filtered out |
| `FieldExpander.ExpandTermsAppend` | lib/cronedit.rb:236-254 | a field succeeds exactly when all its comma sub-terms do, and its values are theirs, concatenated in input order with nothing sorted or removed |
| `FieldExpander.ExpandTermsFirstError` | lib/cronedit.rb:237-253 | a failing field raises the error of its first failing sub-term, and every sub-term before it succeeds |
| `FieldExpander.ExpandTermsValues` | lib/cronedit.rb:237-253 | every value comes from some sub-term, is a whole number of that sub-term's steps above `first`, and lies in `first..last` unless the sub-term is a bare value |
| `FieldExpander.SpanIsChecked` | lib/cronedit.rb:245-250 | a range `f-l` fails exactly when `f < first` or `l > last`; when it succeeds, both bounds are in the domain |
| `FieldExpander.SingleNonNegative` | lib/cronedit.rb:243-244 | a bare value has no `-`, so its `to_i` is never negative |
| `FieldExpander.ExpandNumber` | lib/cronedit.rb:243-244 | a bare number is that one value, whatever the domain |
| `FieldExpander.ExpandSteppedSpan` | lib/cronedit.rb:238-252 | `f-l/s` inside the domain selects the values of `f..l` a whole number of steps `s` above the domain's low end |
| `FieldExpander.SpanAboveDomain` | lib/cronedit.rb:247-248 | `f-l` with `l` above the domain raises `FormatError` naming `l` and the limit |
| `FieldExpander.StarTerm` | lib/cronedit.rb:241-242 | `*` gives the whole domain with step 1 |
| `FieldExpander.RenderExpands` | lib/cronedit.rb:254-255 | the comma list `join` writes for non-negative values expands back to exactly those values, in order |
| `FieldExpander.ExpandedNonNegative` | lib/cronedit.rb:235-256 | over a domain starting at 0 or above, every value a field expands to is non-negative |
| `FieldExpander.ParseField` | lib/cronedit.rb:235-256 | over a domain starting at 0 or above, the comma list `parse_field` writes expands to the same values as the field it was given, so `parse_field` applied to its own output returns that output |
| `FieldExpander.MinuteList` | test/cronedit_test.rb:28 | minute `"5,35"` stays `"5,35"` |
| `FieldExpander.HourEveryTwo` | test/cronedit_test.rb:29 | hour `"0-23/2"` gives every even hour from 0 to 22 |
| `FieldExpander.EveryDay` | test/cronedit_test.rb:30 | day `"*"` gives 1 to 31 in order |
| `FieldExpander.EveryMonth` | lib/cronedit.rb:241-242 | month `"*"` gives 1 to 12 in order |
| `FieldExpander.EveryWeekday` | lib/cronedit.rb:241-242 | weekday `"*"` gives 0 to 6 in order |
| `FieldExpander.MinuteOutOfRange` | test/cronedit_test.rb:32-36 | minute `"1-85"` raises `FormatError` for 85 over the limit 59 |
| `FieldExpander.StepFromDomainStart` | lib/cronedit.rb:252 | `"1-9/2"` in the minute field gives 2, 4, 6, 8: steps count from the domain's start, not from 1 |
| `FieldExpander.OrderAndRepeatsKept` | lib/cronedit.rb:254-255 | `"35,5,5"` gives 35, 5, 5: no sorting and no de-duplication |
| `FieldExpander.SingleValueUnchecked` | lib/cronedit.rb:243-244 | minute `"99"` is accepted as 99 |
| `Entries.DayNumber` | lib/cronedit.rb:224 | `WDAY.index(name)` finds the position holding `name`, or none when no position does |
| `Entries.DayNamesDistinct` | lib/cronedit.rb:258 | the seven day names are distinct three-letter lower-case words |
| `Entries.DayNameReplaced` | lib/cronedit.rb:223-225 | a day name at the front of the weekday field is replaced by its position in `WDAY` |
| `Entries.CommaDigitsKeepNames` | lib/cronedit.rb:223-225 | text of digits and commas goes through the day-name replacement unchanged |
| `Entries.WorkingDays` | lib/cronedit.rb:223-225 | `"Mon-Fri"` is downcased and becomes the range `"1-5"` |
| `Entries.SaturdaySpelling` | lib/cronedit.rb:258 | `"sut"` becomes `"6"` while `"sat"` is left as it is |
| `Entries.ReplaceDayNames` | lib/cronedit.rb:223-225 | replacing the day names never lengthens the weekday field, and gives empty text only for empty text |
| `Entries.TimedateFields` | lib/cronedit.rb:221-222 | when the expression matches, it yields five fields, each a non-empty run of non-whitespace characters |
| `Entries.CommandOf` | lib/cronedit.rb:214 | the command found is a single line, without a newline |
| `Entries.WordsAreTokens` | lib/cronedit.rb:222 | the anchored five-word expression matches exactly when the text starts with a word and has at least five, and then yields the first five whitespace-separated words |
| `Entries.WordsOfLine` | lib/cronedit.rb:222 | words separated by whitespace are read back one by one, with the text after them |
| `Entries.TimedateOfFive` | lib/cronedit.rb:221-222 | `parse_timedate` takes the five fields of a line of five words from that line |
| `Entries.CommandOfFive` | lib/cronedit.rb:214 | the command is what follows the whitespace after the fifth field, up to the end of the line |
| `Entries.TooFewWords` | lib/cronedit.rb:212-222 | a one-line definition with fewer than five words, or with leading whitespace, has no schedule fields, and `CronEntry.new` fails on it |
| `Entries.ParseTimedate` | lib/cronedit.rb:220-232 | text in which no line start has five words fails as `nil` does in Ruby; a successful parse sets exactly the five schedule keys |
| `Entries.ParseSchedule` | lib/cronedit.rb:226-231 | when all five `parse_field` calls succeed, the hash holds exactly the five schedule keys |
| `Entries.ParseTextDef` | lib/cronedit.rb:212-217 | a successful parse has succeeded on the schedule, holds exactly the six keys of `DEFAULTS`, and has a one-line command |
| `Entries.ParseTimedateOf` | lib/cronedit.rb:220-232 | fields that `parse_field` and the weekday rewriting leave unchanged give back the hash of those five fields |
| `Entries.TimedateKeys` | lib/cronedit.rb:226-231 | a successful `parse_timedate` sets exactly the five schedule keys |
| `Entries.TextEntryOfParts` | lib/cronedit.rb:212-217 | a text entry keeps its line, and its hash is the five expanded fields plus the command |
| `Entries.TextEntryKeys` | lib/cronedit.rb:184-185 | a text entry's hash holds exactly the six known keys, and its text is the line as given |
| `Entries.RawOfWritten` | lib/cronedit.rb:201-205 | `to_raw` writes the five schedule values, a tab between each, then a tab and the command |
| `Entries.RawOf` | lib/cronedit.rb:201-205 | splitting `to_raw`'s line at its tabs gives the six values back, when none holds a tab |
| `Entries.ScheduleLine` | lib/cronedit.rb:201-205 | for fields as `parse_field` writes them and a one-line command, `to_raw`'s line reads back as those five fields and that command |
| `Entries.WrittenFieldKept` | lib/cronedit.rb:223-256 | a field `parse_field` wrote is read back unchanged, in the weekday field too |
| `Entries.TextRoundTrip` | lib/cronedit.rb:176-187 | a text entry built from the line `to_raw` writes for a canonical hash has that same hash |
| `Entries.HashAndTextAgree` | lib/cronedit.rb:176-187 | a hash entry and the text entry built from its `to_s` are the same entry |
| `Entries.NewEntry` | lib/cronedit.rb:176-187 | a built entry's hash holds exactly the six keys of `DEFAULTS`; its `to_s` is the given line for a text definition and `to_raw` of its hash for a hash definition |
| `Entries.HashEntry` | lib/cronedit.rb:176-182 | a hash fails exactly when it has a key outside the six known ones, and names those keys; otherwise every known key holds the given value or its default, and `to_s` is `to_raw` |
| `Entries.FullHashEntry` | lib/cronedit.rb:180-182 | a hash of all six keys is taken as it is |
| `Entries.EntryForms` | lib/cronedit.rb:189-199 | whatever the definition, `[]` answers for exactly the six known keys and `to_hash` holds them; `to_s` is the given line for a text definition and `to_raw` for a hash |
| `Entries.DefaultEntry` | test/cronedit_test.rb:18-19 | `CronEntry.new` writes five stars and an empty command, tab-separated |
| `Entries.MinuteAndCommand` | test/cronedit_test.rb:21-22 | a minute and a command give `"5\t*\t*\t*\t*\techo 42"` |
| `Entries.UnknownKey` | test/cronedit_test.rb:38-42 | the key `minuteZ` is refused, and named |
| `Entries.ExampleEntry` | test/cronedit_test.rb:14-30 | the example line is kept as written; its minutes are `5,35`, its hours every even hour, and its days, months and weekdays every value of their domains |
| `Entries.MinuteRangeRefused` | test/cronedit_test.rb:32-36 | the line `"1-85 2 * * * echo 123"` raises `FormatError` |
| `Crontabs.CrontabOf` | lib/cronedit.rb:142-159 | whatever the text, the hash `parseCrontab` returns lists each id once; ids are single stripped lines; values are stripped, non-empty entry lines |
| `Crontabs.Crontab.ParseCrontab` | lib/cronedit.rb:142-159 | the loop over `each_line` computes the parse of the text, `{}` when it stops early included |
| `Crontabs.Crontab.ParseLine` | lib/cronedit.rb:147-156 | one pass of the loop body: it stops exactly on a `no` line, and otherwise gives the next counter, pending id and hash |
| `Crontabs.Step` | lib/cronedit.rb:147-156 | one line stops the parse exactly when, stripped, it starts with `no`; otherwise the counter never goes down and no id is dropped from the hash |
| `Crontabs.Run` | lib/cronedit.rb:146-157 | over any lines, a parse that does not stop keeps every id it already had, and its counter never goes down |
| `Crontabs.RunAppend` | lib/cronedit.rb:146-157 | the loop over two runs of lines is the loop over the first, then over the second |
| `Crontabs.StepKeepsGood` | lib/cronedit.rb:147-156 | each line `each_line` yields keeps the hash well formed and the pending id a stripped single line |
| `Crontabs.RunKeepsGood` | lib/cronedit.rb:146-157 | the whole loop keeps that invariant |
| `Crontabs.RunStops` | lib/cronedit.rb:149 | the parse gives up exactly when some line, stripped, starts with `no` |
| `Crontabs.NoCrontabMessage` | lib/cronedit.rb:149 | a text with such a line anywhere lists as `{}` |
| `Crontabs.CommentOverridden` | lib/cronedit.rb:150-151 | of two comments in a row, only the second names the next entry |
| `Crontabs.RunBlank` | lib/cronedit.rb:147-148 | a blank line is skipped |
| `Crontabs.RunComment` | lib/cronedit.rb:150-151 | an indented `#name` makes `name` the pending id |
| `Crontabs.RunNumbered` | lib/cronedit.rb:153-155 | an entry line with no pending id is stored under the next number, and the counter advances |
| `Crontabs.RunNamed` | lib/cronedit.rb:153-155 | an entry line is stored under the pending id, the id is consumed, and the counter stays |
| `Crontabs.Listing` | lib/cronedit.rb:91-92 | the listed crontab as values of the merge: the same ids in the same order, each with its listed line |
| `Crontabs.Additions` | lib/cronedit.rb:93 | the pending additions as values of the merge: the same ids in the same order, each with its `CronEntry` |
| `Crontabs.Texts` | lib/cronedit.rb:98-100 | what `commit` writes for the merge: the same ids in the same order, each with the text `puts` writes for its value (the listed line, or the entry's `to_s`) |
| `Crontabs.Merged` | lib/cronedit.rb:91-93 | the merge of a well-formed current crontab lists each id once |
| `Crontabs.MergedContents` | lib/cronedit.rb:91-93 | an id is in the merge when it is added, or is current and not removed; an added id holds its `CronEntry` and any other id its listed line; current ids keep their order and new ids follow in the order they were added |
| `Crontabs.NothingPending` | lib/cronedit.rb:91-93 | with nothing pending, the merge is the current crontab unchanged, and so is the text written for it |
| `Crontabs.CommitIntoEmpty` | lib/cronedit.rb:91-93 | into an empty crontab, the merge is exactly the added entries, in order |
| `Crontabs.AddAfterRemove` | lib/cronedit.rb:71-85 | removing an id and then adding it again puts the added entry in the merge |
| `Crontabs.RemoveAfterAdd` | lib/cronedit.rb:71-85 | adding an id and then removing it takes the id out of the crontab |
| `Crontabs.RecordLines` | lib/cronedit.rb:99-100 | the two lines `puts` writes for an entry are read back as the `# id` comment, then the entry line |
| `Crontabs.ReadRecords` | lib/cronedit.rb:142-159 | reading back what `commit` wrote assigns each pair in turn |
| `Crontabs.Serialize` | lib/cronedit.rb:97-101 | the text `commit` writes is empty exactly when the hash is, and otherwise ends with a newline, so its last entry line is terminated |
| `Crontabs.RecordsEnd` | lib/cronedit.rb:98-100 | the records of a list of ids are empty only for no ids, and otherwise end with the newline `puts` writes |
| `Crontabs.SerializeRoundTrip` | lib/cronedit.rb:97-101 | writing a well-formed hash as `commit` does and parsing the text gives back the same hash, in the same order |
| `Crontabs.RelistIsStable` | lib/cronedit.rb:97-101 | listing, writing the listing back and listing again changes nothing |
| `Crontabs.CommitThenList` | lib/cronedit.rb:89-109 | when the current crontab was parsed and every addition is a stripped one-line entry, listing after `commit` gives the text of each merged value under its id, in the merge's order |
| `Crontabs.WriteRecords` | lib/cronedit.rb:97-101 | the write loop puts the `# id` line and the text of each merged value, in the merge's order |
| `Crontabs.Crontab.constructor` | lib/cronedit.rb:40-43 | a new crontab has nothing pending |
| `Crontabs.Crontab.Add` | lib/cronedit.rb:71-73 | the entry is built from the definition and stored under the id, replacing a pending one; a rejected definition records nothing; removals are untouched |
| `Crontabs.Crontab.Remove` | lib/cronedit.rb:82-85 | the pending addition of the id is dropped, and the id is added to the removals |
| `Crontabs.Crontab.Rollback` | lib/cronedit.rb:112-115 | nothing is pending afterwards |
| `Crontabs.Crontab.Commit` | lib/cronedit.rb:89-109 | returns the merge, in which added ids hold their `CronEntry`, and the text that installs it; nothing is pending afterwards |
| `Crontabs.RollbackSession` | test/cronedit_test.rb:66-75 | an addition and a removal that are rolled back leave the current crontab unchanged at the next commit, in the merge and in the text written for it |
| `Crontabs.FirstBatch` | test/cronedit_test.rb:79-85 | two additions committed into an empty crontab list back under their ids, in order |
| `Crontabs.SecondBatch` | test/cronedit_test.rb:87-93 | replacing the first id and removing the second leaves only the replacement |
| `Crontabs.CommitSession` | test/cronedit_test.rb:77-93 | both batches of the commit session, one after the other |
| `Crontabs.ZipLines` | test/cronedit_test.rb:45-56 | `each_line` splits the sample crontab into its twelve lines |
| `Crontabs.ZipListing` | test/cronedit_test.rb:44-58 | the sample gives `1`, `agent1` and `agent2`: the unnamed entry is numbered 1, a comment with no entry after it is overridden, and the later `agent1` entry replaces the earlier one in its place |

## Left out

- Running `crontab -l` and `crontab -` (`list`, `listRaw`, and the install half of `commit`, lib/cronedit.rb:96-103, 125-140): the crontab that `commit` reads is a parameter of `Commit`, and the text it would pipe out is one of its results. The `-u user` option (lib/cronedit.rb:41, 96) has no effect without these commands and is not modelled.
- `sleep 0.01` in `commit` (lib/cronedit.rb:105): a timing workaround with no effect on the model.
- `review` (lib/cronedit.rb:118-121): it only prints.
- The class methods `Add`, `Remove` and `List` (lib/cronedit.rb:47-64): each only combines `new`, `add` or `remove`, and `commit` or `list`.
- `addAllFrom` (lib/cronedit.rb:76-79): it only raises "Not implemented yet".
- The demonstration run at the end of `lib/cronedit.rb`: it shells out to `crontab`.
- `freeze` in `to_s` and `to_hash`: model values are immutable anyway.
- `@removals` is a Hash from id to id in the library. The model keeps a set of ids, which is all `commit` consults.
- Hash values are strings in the model. The library interpolates any value into `to_raw` (the test passes the minute as the integer 5), and the model writes that value as the string "5".
- Ruby's `Hash#==` ignores order. The model's equality of hashes also compares the key order, so the lemmas that state equal hashes say more than the library's tests check.
- `String#downcase` is modelled on ASCII letters only. `String#to_i` is modelled as an optional sign and leading decimal digits; underscores and leading whitespace are not modelled.
- The regular expressions are modelled by scanning, not by a regular-expression engine:
  - `parse_timedate`'s expression takes the first line start (the start of the text, or a position just after a newline) from which five whitespace-separated words follow. Those words may run on into later lines, because `\s+` also matches a newline.
  - `parseTextDef`'s expression takes five words from the first character that is not whitespace, then the rest of that line.
  - `gsub` is a left-to-right replacement of the seven names.
- Round trips of crontab text the library did not write itself: such text need not round-trip. Indentation, blank lines and comments without entries are lost on reading, and an entry line that is not stripped is stored stripped.
