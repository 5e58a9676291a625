# simple-xml-util: the libxml error report, modelled in Dafny

`simple-xml-util` wraps PHP's `simplexml_load_string`. `SimpleXmlStringParser::parseXmlString` returns the
loaded element. When the load fails or libxml reports any error, it raises a
`SimpleXmlStringParserException` instead. That exception carries the libxml errors, and its message quotes
the input (cut to 80 characters) followed by a readable report of every error.

This project models that error layer and proves properties of it:

- `PhpStrings` (`php_strings.dfy`): the PHP primitives the report depends on, over strings of code points:
  - `trim` with its default character list;
  - `preg_split('/\R/u', …)`;
  - the decimal text of an int, and the integer-form numeric strings PHP 8 compares loosely;
  - `str_repeat('-', n)`.
- `PhpValues` (`php_values.dfy`): `mixed` values and the `\LibXMLError` record, including:
  - the record's six declared properties (`level`, `code`, `column`, `message`, `file`, `line`). They are untyped: each accepts any value, and an unset one reads as `null`. An unset property and one holding `null` are not told apart, which is what the source's `isset` checks see. The model does not follow the typed declarations `\LibXMLError` has from PHP 8.1 (see "## Left out");
  - `isset`;
  - `(string)`, which can fail: PHP raises an Error for an object without `__toString`;
  - the loose `==` of a `switch` against an int, with PHP 8 rules.
- `ErrorReport` (`error_report.dfy`):
  - `getLibXmlErrorAsString`, one error as a block of text;
  - `getLibXmlErrorsAsString`, a list of errors as a report, written as a loop. The report takes the per-error renderer as a parameter, because the source calls that renderer through `static::` and a subclass can override it. As in the loop, a text source is split into lines once, and each error is rendered against those lines. The report agrees with the loop for every renderer whose blocks are never empty. The loop uses `RenderError`, whose blocks never are;
  - the summary and the trimmed failure message of `parseXmlString`.
- `Exceptions` (`exceptions.dfy`):
  - `valueToLibXmlError`, written as its copying loop with a match flag;
  - the exception class, whose constructor filters the errors it is given and whose `getErrors` returns them.
- `Parsing` (`parsing.dfy`): the parser class, covering its configuration, its setters and `parseXmlString`.
  The native loader is a function parameter.

Documentation and code disagree in one place, and the model follows the code, with untyped record properties. The doc comment of
`valueToLibXmlError` promises `null` unless the result has at least one set property. The code keeps the
copied record as soon as any key names a declared property, even when that key's value is `null`. So
`['message' => null]` gives a record with nothing set. `Exceptions.NullFieldConverts` proves this. With PHP 8.1's typed properties, the same assignment raises a `TypeError` instead (see "## Left out").

## Model

| member | source | states |
|---|---|---|
| PhpStrings.Trim | src/Parser/SimpleXmlStringParser.php:360 | `trim` with its default list: the characters " \t\n\r\0\x0B" cut from both ends (characterised by `TrimIsSlice`, `TrimEmptyIff` and `TrimIdempotent`) |
| PhpStrings.TrimIsSlice | src/Parser/SimpleXmlStringParser.php:360 | `trim` gives a slice of its input; everything cut off is a trim character, and a non-empty result neither starts nor ends with one |
| PhpStrings.TrimEmptyIff | src/Exception/SimpleXmlStringParserException.php:131 | a trimmed text is empty exactly when every character is one of " \t\n\r\0\x0B" |
| PhpStrings.TrimIdempotent | src/Parser/SimpleXmlStringParser.php:387 | trimming twice equals trimming once |
| PhpStrings.TrimKeeps | src/Parser/SimpleXmlStringParser.php:360 | a text with no trim character at either end is left unchanged |
| PhpStrings.TrimDropsFinalBreak | src/Parser/SimpleXmlStringParser.php:258-266 | for an already trimmed text, trimming it plus one line break removes only that break |
| PhpStrings.BreakLength | src/Parser/SimpleXmlStringParser.php:291 | a `\R` match at the start of a text is at most two characters long, and positive exactly when the text starts with a break character. It is two characters exactly for CR LF, which counts as one break |
| PhpStrings.SplitLines | src/Parser/SimpleXmlStringParser.php:330 | splitting at `\R` always gives at least one line |
| PhpStrings.SplitLinesJoin | src/Parser/SimpleXmlStringParser.php:330 | joining the split lines with LF gives the text back, with each break normalised to LF |
| PhpStrings.SplitLinesHaveNoBreaks | src/Parser/SimpleXmlStringParser.php:291 | no split line contains a line-break character |
| PhpStrings.SplitLinesSingle | src/Parser/SimpleXmlStringParser.php:330 | a text without breaks is a single line |
| PhpStrings.SplitLinesCrLf | src/Parser/SimpleXmlStringParser.php:291 | CR LF is a single break: a text starting with CR LF gives one empty line, then the lines of the rest |
| PhpStrings.JoinSnoc | src/Parser/SimpleXmlStringParser.php:299-303 | appending a part to a join adds exactly one separator before it |
| PhpStrings.JoinEndsWithLast | src/Parser/SimpleXmlStringParser.php:303 | a join ends with its last part |
| PhpStrings.NatToString | src/Parser/SimpleXmlStringParser.php:388 | the decimal text of a natural number is non-empty and made of digits only |
| PhpStrings.NatToStringRoundTrip | src/Parser/SimpleXmlStringParser.php:388 | reading the digits of a natural number back gives the number |
| PhpStrings.IntToString | src/Parser/SimpleXmlStringParser.php:387-389 | the text `(string)` gives for an int: an optional minus and its decimal digits (read back by `IntToStringRoundTrip`) |
| PhpStrings.IntegerStringValue | src/Parser/SimpleXmlStringParser.php:369-385 | the int value of an integer-form numeric string, leading whitespace and trailing whitespace allowed, as PHP 8 uses it for `==` against an int (matched with `IntToString` by `IntToStringRoundTrip`) |
| PhpStrings.IntegerStringUnpadded | src/Parser/SimpleXmlStringParser.php:369-385 | a numeric string without surrounding whitespace is read from its sign and digits alone |
| PhpStrings.SignedNumberOfText | src/Parser/SimpleXmlStringParser.php:369-385 | reading the sign and digits of an int's decimal text gives the int |
| PhpStrings.IntToStringRoundTrip | src/Parser/SimpleXmlStringParser.php:369-385 | the decimal text of an int is a numeric string whose value is that int |
| PhpStrings.IntToStringTrimmed | src/Parser/SimpleXmlStringParser.php:360 | `trim` never changes the decimal text of an int |
| PhpStrings.Dashes | src/Parser/SimpleXmlStringParser.php:352 | `str_repeat('-', n)` has length n and consists of dashes only |
| PhpValues.SetProperty | src/Exception/SimpleXmlStringParserException.php:99 | after the assignment, the named property reads the new value and every other property is unchanged |
| PhpValues.StringOf | src/Parser/SimpleXmlStringParser.php:387-389 | `(string)` succeeds exactly for values other than an object without `__toString` |
| PhpValues.LooseEqualsInt | src/Parser/SimpleXmlStringParser.php:369-385 | the loose `==` a `switch` applies between a value and an int, with PHP 8 rules for each type (characterised by `LooseEqualsIntCases`) |
| PhpValues.LooseEqualsIntCases | src/Parser/SimpleXmlStringParser.php:369-385 | an int and its decimal text are loosely equal to that int and to no other; `null` and `false` equal no non-zero level |
| ErrorReport.RenderError | src/Parser/SimpleXmlStringParser.php:325-397 | a block is produced exactly when message, line and column all have a string form (PHP raises an Error otherwise); every block ends with LF, the 44-dash rule and LF |
| ErrorReport.ContextHeader | src/Parser/SimpleXmlStringParser.php:333-355 | the offending source line and a caret under the column when the line can be shown, else the 44-dash rule (characterised by `HeaderShape` and `HeadersDiffer`) |
| ErrorReport.CodeText | src/Parser/SimpleXmlStringParser.php:357-365 | the trimmed text of an int or string code, `?` when that is empty or the code is of another type (characterised by `CodeShape`) |
| ErrorReport.SeverityLabel | src/Parser/SimpleXmlStringParser.php:367-385 | the label the `switch` on the level picks (characterised by `SeverityCases`) |
| ErrorReport.FieldText | src/Parser/SimpleXmlStringParser.php:388-389 | a set `line` or `column` as its string form, an unset one as nothing (its effect on the block is stated by `UnsetLine` and `UnsetColumn`) |
| ErrorReport.MessageText | src/Parser/SimpleXmlStringParser.php:387 | a set message, trimmed, and nothing for an unset one (its effect on the block is stated by `UnsetMessage`) |
| ErrorReport.FileLine | src/Parser/SimpleXmlStringParser.php:391-393 | the `File:` line, present only for a non-empty string `file` (its place in the block is stated by `TailFile` and `TailColumn`) |
| ErrorReport.HeaderShape | src/Parser/SimpleXmlStringParser.php:333-355 | the block opens with the offending line and a caret under the column when the line number lies between 1 and the number of lines; otherwise it opens with the rule |
| ErrorReport.HeadersDiffer | src/Parser/SimpleXmlStringParser.php:333-355 | a context header never equals the rule line |
| ErrorReport.CodeShape | src/Parser/SimpleXmlStringParser.php:357-365 | the code shown is never empty: `?` unless the code is an int or a non-blank string, otherwise its trimmed text |
| ErrorReport.SeverityCases | src/Parser/SimpleXmlStringParser.php:367-385 | levels 1, 2 and 3 are labelled warning, error and fatal error; an unset level or any other int is an unknown error |
| ErrorReport.RenderErrorParts | src/Parser/SimpleXmlStringParser.php:327-396 | a block is the header, then the body, then the optional `File:` line, then the footer, in that order |
| ErrorReport.BodyShape | src/Parser/SimpleXmlStringParser.php:367-389 | after the header come the label, the code and the trimmed message, then a `Line:` line and a `Column:` line |
| ErrorReport.UnsetLine | src/Parser/SimpleXmlStringParser.php:388-389 | an unset `line` prints as nothing: the `Column:` label comes straight after the `Line:` label |
| ErrorReport.UnsetMessage | src/Parser/SimpleXmlStringParser.php:387-388 | an unset message prints as nothing: the `Line:` line comes straight after the code's `): ` |
| ErrorReport.UnsetColumn | src/Parser/SimpleXmlStringParser.php:389-395 | an unset `column` with no `File:` line leaves a bare `Column:` label directly before the footer |
| ErrorReport.TailFooter | src/Parser/SimpleXmlStringParser.php:395 | every block ends with the rule and one line break |
| ErrorReport.TailFile | src/Parser/SimpleXmlStringParser.php:391-395 | when `file` is a non-empty string, its `File:` line comes directly before the footer |
| ErrorReport.TailColumn | src/Parser/SimpleXmlStringParser.php:389-395 | otherwise the `Column:` line comes directly before the footer |
| ErrorReport.BodyEndsWithColumn | src/Parser/SimpleXmlStringParser.php:387-389 | the body ends with its `Column:` line |
| ErrorReport.BlockEnding | src/Parser/SimpleXmlStringParser.php:395-396 | a block's last two characters are a dash and LF |
| ErrorReport.Records | src/Parser/SimpleXmlStringParser.php:294-297 | the entries of the list that are `\LibXMLError` records, in order (characterised by `RecordsAppend` and `RecordsMembers`) |
| ErrorReport.RenderAll | src/Parser/SimpleXmlStringParser.php:294-304 | every record's block in order, failing when one record fails (characterised by `RenderAllAt`, `RenderAllLength` and `RenderAllIndex`) |
| ErrorReport.Prepared | src/Parser/SimpleXmlStringParser.php:290-292 | the source handed to each call of the per-error renderer: a text is split into its lines once, and other sources are passed on unchanged; it is never a text |
| ErrorReport.ListReport | src/Parser/SimpleXmlStringParser.php:286-311 | the sentinel for a list without records, else the blocks rendered against the prepared source, joined by LF (characterised by `NoRecordsReport`, `ListJoining` and `ListFails`, tied to the loop by `ErrorsAsString`) |
| ErrorReport.RecordsAppend | src/Parser/SimpleXmlStringParser.php:294-297 | the records of two concatenated lists are the records of the first followed by those of the second |
| ErrorReport.RecordsMembers | src/Parser/SimpleXmlStringParser.php:294-297 | the records kept are exactly the list's record entries: there are none exactly when no entry is a record, and never more than the entries |
| ErrorReport.RenderAllAppendNone | src/Parser/SimpleXmlStringParser.php:294-304 | once a record fails to render, the rendering of any longer list fails |
| ErrorReport.RenderAllLength | src/Parser/SimpleXmlStringParser.php:294-304 | a successful rendering has one block per record |
| ErrorReport.RenderAllIndex | src/Parser/SimpleXmlStringParser.php:303 | the k-th block is what the per-error renderer gives for the k-th record |
| ErrorReport.RenderAllFailsAt | src/Parser/SimpleXmlStringParser.php:303 | a failed rendering has a record that the per-error renderer fails on |
| ErrorReport.RenderAllAt | src/Parser/SimpleXmlStringParser.php:294-304 | the rendering succeeds exactly when every record renders; then the k-th block is the k-th record's block |
| ErrorReport.NoRecordsReport | src/Parser/SimpleXmlStringParser.php:306-308 | a list without records, including the empty list, is reported as "No Libxml Internal Errors!" and LF |
| ErrorReport.ListJoining | src/Parser/SimpleXmlStringParser.php:299-304 | a list with records is reported as their blocks, each rendered against the split source, in order, with exactly one LF between consecutive blocks |
| ErrorReport.ListFails | src/Parser/SimpleXmlStringParser.php:303 | the report fails exactly when one of the list's records fails to render against the split source |
| ErrorReport.JoinClosedByBreak | src/Parser/SimpleXmlStringParser.php:299-303 | joining the blocks keeps the last block's ending |
| ErrorReport.ReportEndingFor | src/Parser/SimpleXmlStringParser.php:299-310 | if each block of the per-error renderer ends with LF after a character `trim` keeps, so does the report |
| ErrorReport.BlocksClosedByBreak | src/Parser/SimpleXmlStringParser.php:395 | every block of `getLibXmlErrorAsString` ends with LF after a dash |
| ErrorReport.ReportEnding | src/Parser/SimpleXmlStringParser.php:306-310 | every report ends with LF preceded by a character that `trim` keeps |
| ErrorReport.ReportedSkip | src/Parser/SimpleXmlStringParser.php:295-297 | skipping an entry that is not a record keeps the loop's accumulator correct |
| ErrorReport.AppendBlock | src/Parser/SimpleXmlStringParser.php:299-303 | appending LF (unless nothing was appended yet) and then a block is joining one more block |
| ErrorReport.ReportedAppend | src/Parser/SimpleXmlStringParser.php:299-303 | appending LF (unless the accumulator is empty) and then a record's block keeps the accumulator correct |
| ErrorReport.ReportedFail | src/Parser/SimpleXmlStringParser.php:303 | a record that fails to render makes the whole report fail |
| ErrorReport.ReportedDone | src/Parser/SimpleXmlStringParser.php:306-310 | after the whole list, the report is the accumulator, or the sentinel when the accumulator is empty |
| ErrorReport.SplitSourceRenders | src/Parser/SimpleXmlStringParser.php:290-292 | `getLibXmlErrorAsString` gives the same block for a text as for its lines, so splitting once up front does not change the default renderer's blocks |
| ErrorReport.ErrorsAsString | src/Parser/SimpleXmlStringParser.php:286-311 | the loop returns the list's report, and fails exactly when that report fails |
| ErrorReport.Summary | src/Parser/SimpleXmlStringParser.php:249-254 | the data quoted in the message, cut around `...` beyond 80 characters (characterised by `SummaryShape`) |
| ErrorReport.SummaryShape | src/Parser/SimpleXmlStringParser.php:249-254 | the summary has at most 80 characters and equals the data exactly when the data has at most 80; a longer input gives its first 65 characters, `...` and its last 12 |
| ErrorReport.FailureMessage | src/Parser/SimpleXmlStringParser.php:256-267 | the trimmed text built from the prefix, the summary, the infix, two line breaks and the report (characterised by `FailureMessageTrim` and `FailureMessageShape`) |
| ErrorReport.FailureMessageTrim | src/Parser/SimpleXmlStringParser.php:258-266 | around a report that ends like every report does, the `trim` removes exactly the report's final LF |
| ErrorReport.FailureMessageShape | src/Parser/SimpleXmlStringParser.php:256-267 | the failure message is the prefix, the summary, the infix, two LFs and the report without its final LF |
| Exceptions.CopyEntries | src/Exception/SimpleXmlStringParserException.php:91-100 | a fresh record with every entry assigned in order (characterised by `CopiedValue` and `CopiedAbsent`) |
| Exceptions.MessageRecord | src/Exception/SimpleXmlStringParserException.php:130-138 | a record whose only set property is the message, or nothing for a blank text (used by `TextConversion`, `IntConverts` and `ObjectConversion`) |
| Exceptions.ToLibXmlError | src/Exception/SimpleXmlStringParserException.php:81-139 | what `valueToLibXmlError` returns for each type of value (characterised by the conversion lemmas, and computed by `ValueToLibXmlError`) |
| Exceptions.CopyProperties | src/Exception/SimpleXmlStringParserException.php:91-100 | the `foreach` assigns every entry, in order, to a fresh record, and raises the flag exactly when some key is a declared property |
| Exceptions.ValueToLibXmlError | src/Exception/SimpleXmlStringParserException.php:81-139 | the copying loop with its match flag, and the fallback to a message, return what the conversion defines |
| Exceptions.CopiedValue | src/Exception/SimpleXmlStringParserException.php:91-100 | after copying, each property holds the value of the last entry with its name |
| Exceptions.CopiedAbsent | src/Exception/SimpleXmlStringParserException.php:91-100 | a property that no entry names stays `null` |
| Exceptions.ArrayConversion | src/Exception/SimpleXmlStringParserException.php:90-127 | an array converts exactly when one of its keys is a declared property, and then into the record copied from it |
| Exceptions.ObjectConversion | src/Exception/SimpleXmlStringParserException.php:90-138 | an object converts exactly when a property name is a declared one, or it has a `__toString` that gives a non-blank text; in the latter case that text becomes the message |
| Exceptions.TextConversion | src/Exception/SimpleXmlStringParserException.php:119-138 | a string or float converts exactly when its text is not blank, into a record whose only set property is the message |
| Exceptions.IntConverts | src/Exception/SimpleXmlStringParserException.php:120-138 | every int converts, with its decimal text as the message |
| Exceptions.OtherTypesRejected | src/Exception/SimpleXmlStringParserException.php:125-127 | a bool, `null` or a resource never converts |
| Exceptions.FallbackHasMessage | src/Exception/SimpleXmlStringParserException.php:130-138 | a value converted without a declared key always has a set, non-blank message |
| Exceptions.NullFieldConverts | src/Exception/SimpleXmlStringParserException.php:94-104 | `['message' => null]` converts into a record with no property set |
| Exceptions.Normalise | src/Exception/SimpleXmlStringParserException.php:49-57 | the given values converted, the ones that fail dropped, in order (characterised by `NormaliseAppend`, `NormaliseRecords` and `NormaliseMembers`, and built by the constructor's loop) |
| Exceptions.AsValues | src/Exception/SimpleXmlStringParserException.php:63-66 | records seen as values keep their order and length |
| Exceptions.NormaliseAppend | src/Exception/SimpleXmlStringParserException.php:49-57 | filtering two concatenated lists gives the two filtered lists concatenated |
| Exceptions.NormaliseRecords | src/Exception/SimpleXmlStringParserException.php:49-57 | a list of records is kept unchanged |
| Exceptions.NormaliseMembers | src/Exception/SimpleXmlStringParserException.php:49-57 | every kept record is the conversion of a given value, every value that converts is kept, and no more records are kept than values given |
| Exceptions.SimpleXmlStringParserException.constructor | src/Exception/SimpleXmlStringParserException.php:45-58 | the exception keeps its message and code, and its errors are the given values converted, minus those that fail, in order |
| Exceptions.SimpleXmlStringParserException.GetErrors | src/Exception/SimpleXmlStringParserException.php:63-66 | returns the stored records, which the constructor's filter would keep unchanged |
| Parsing.SimpleXmlStringParser.constructor | src/Parser/SimpleXmlStringParser.php:51-63 | every configuration field holds the value given |
| Parsing.SimpleXmlStringParser.Create | src/Parser/SimpleXmlStringParser.php:51-63 | a parser is created exactly when the class name is accepted, and then holds the given configuration |
| Parsing.SimpleXmlStringParser.SetClassName | src/Parser/SimpleXmlStringParser.php:78-94 | accepts only `SimpleXMLElement` or one of its subclasses and leaves the class name unchanged otherwise; returns the parser itself |
| Parsing.SimpleXmlStringParser.SetOptions | src/Parser/SimpleXmlStringParser.php:109-118 | stores the options and returns the parser itself |
| Parsing.SimpleXmlStringParser.SetNs | src/Parser/SimpleXmlStringParser.php:133-142 | stores the namespace and returns the parser itself |
| Parsing.SimpleXmlStringParser.SetPrefix | src/Parser/SimpleXmlStringParser.php:157-166 | stores the prefix flag and returns the parser itself |
| Parsing.SimpleXmlStringParser.SetDisableEntityLoader | src/Parser/SimpleXmlStringParser.php:181-190 | stores the optional entity-loader flag and returns the parser itself |
| Parsing.SimpleXmlStringParser.ParseXmlString | src/Parser/SimpleXmlStringParser.php:209-271 | returns the element exactly when the load gave one and no error. Otherwise it raises the exception: the errors are filtered, the code is 0, and the message is built from the summary and the report. It ends in a PHP Error exactly when the report fails |
| Parsing.MessageAround | src/Parser/SimpleXmlStringParser.php:256-267 | the failure message opens with the quoted summary and ends with the report without its final LF |
| Parsing.RaisedMessage | src/Parser/SimpleXmlStringParser.php:248-267 | the message of a raised exception opens with the quoted summary of the data and ends with the whole report except its final LF |

## Left out

- The native `simplexml_load_string` call is the `Loader` parameter of `ParseXmlString`. It receives the data and the whole configuration; what it returns is taken as given.
- libxml's global state is not modelled. This covers `libxml_use_internal_errors`, `libxml_clear_errors`, and the saving and restoring of the entity-loader flag. These side effects are not visible in the result.
- `is_subclass_of` is a query on PHP's class table. It becomes the `subclasses` set parameter.
- These runtime type checks are not modelled, because the model's types already rule out the inputs they refuse:
  - the checks in the setters and the constructor;
  - `is_string($data)` in `parseXmlString`;
  - the `array` type hint of `getLibXmlErrorsAsString`.
- The getters (`getClassName`, `getOptions`, `getNs`, `isPrefix`, `getDisableEntityLoader`) are field reads, and the model reads the fields directly.
- Floats are not formatted: a float is given by the text PHP prints for it.
- Objects are given by the properties `foreach` visits and by the result of their `__toString`. User code run by that method, or an exception it throws, is not modelled.
- Int array keys are given as their decimal text.
- Exceptions.CopyEntries: the record's declared properties are untyped. From PHP 8.1, `\LibXMLError` declares them typed (`int` for `level`, `code`, `column` and `line`, `string` for `message` and `file`) and leaves them uninitialised until set. Under those types, the assignment at src/Exception/SimpleXmlStringParserException.php:99 coerces a value to the property's type, and a value that does not coerce, `null` included, raises a `TypeError`. The model stores every value as it is. A never-assigned property is also then absent from the `(array)` form of the record, whereas the model reads it as `null`.
- Exceptions.NullFieldConverts: holds for untyped properties only. With PHP 8.1's typed properties, `['message' => null]` raises a `TypeError` at the assignment rather than converting.
- Exceptions.CopyEntries: property names that PHP refuses to assign (the empty name, a name starting with NUL) are stored like any other undeclared name. PHP raises an Error for them instead.
- PhpValues.LooseEqualsInt: a non-integer numeric string (`"2.0"`, `"2e0"`) and a float whose text is not integer-form are treated as unequal to every level. PHP 8 compares such values numerically.
- PhpValues.LooseEqualsInt: a float is compared through the text PHP prints for it, which is rounded to 14 significant digits. So a float whose printed text looks like an int is read as that int: `3.0000000000000004` prints as `3` and is taken as level 3, where PHP's `==` compares the exact value and finds it unequal.
- ErrorReport.ListReport: for an overriding renderer that returns an empty block, the source's loop differs from `ListReport`. The loop adds a line break only after a non-empty accumulator, and gives the sentinel when everything appended was empty. `ListReport` joins the blocks, so two empty blocks give a lone LF where the loop gives the sentinel. Only renderers whose blocks are never empty are covered, and `RenderError`'s never are.
- Invalid UTF-8 is not modelled, because strings are sequences of code points. With invalid UTF-8, `preg_split` returns `false` and the block is shown without context.
- A source given as an array is a list of strings. Array entries that PHP would cast to text when printing the line are not modelled.
- Records are values. The identity of a `\LibXMLError` object, and any aliasing between the constructor's input and `getErrors`, are not modelled.
- `PHP_EOL` is LF.
- Of the parent `RuntimeException`, the model keeps only the message and the code. The `$previous` argument and the parent's own plumbing are not modelled.
