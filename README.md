# Add-command parser of the applicant tracker

This project models the parser behind the `add` command of a command-line
applicant tracker: `AddCommandParser.parse` and its helper
`arePrefixesPresent`. The parser receives the text that follows the `add`
keyword and tokenizes it by the nine field prefixes; the model's `Parse`
receives the tokenizer's result. The parser rejects the arguments with one format error, which carries the
add command's usage text, when a mandatory prefix has no value or when stray
text (the preamble) comes before the first prefix. Otherwise it converts each
field with its `ParserUtil` converter in a fixed order and collects all skill
values into a set. It then branches once on whether a status was supplied and
returns an `AddCommand` wrapping the new `Applicant`.

Files:

- `wrappers.dfy`: `Option` and `Result` (a `Failure` stands for a thrown `ParseException`).
- `argument_tokens.dfy`: the nine prefixes and the tokenizer's output
  (`ArgumentMultimap`: preamble, values per prefix, and the multimap's rule for
  which value `getValue` returns).
- `applicants.dfy`: the field value types and the `Applicant` record.
- `add_command_parser.dfy`: the parser (`Parse`, `ConvertFields`,
  `ArePrefixesPresent`).
- `add_command_parser_properties.dfy`: a reference definition of "the first
  failing step" and the lemmas about the parser.

The converters the parser calls (`parseName`, …, `parseTags`, `parseStatus`)
and the status that the status-less `Applicant` constructor fills in are fields
of a `Collaborators` value. Every property below holds for every choice of
them.

## Model

| member | source | states |
|---|---|---|
| `ArgumentTokens.GetValue` | src/main/java/seedu/address/logic/parser/AddCommandParser.java:92 | a prefix's value is present exactly when the prefix has a non-empty list of recorded values; if the multimap returns one of the values it recorded, the returned value is one the user supplied for that prefix |
| `ArgumentTokens.AllValues` | src/main/java/seedu/address/logic/parser/AddCommandParser.java:73 | all values recorded for a prefix, in input order, and the empty list when the prefix never occurred; this list is what `parseTags` receives for the skills |
| `AddCommandParser.ArePrefixesPresent` | src/main/java/seedu/address/logic/parser/AddCommandParser.java:91-93 | true exactly when every prefix of the list has a value, so true for an empty list |
| `AddCommandParser.Value` | src/main/java/seedu/address/logic/parser/AddCommandParser.java:65-72 | for a prefix known to have a value, the value `getValue` returns (so `.get()` never fails after the presence check); when `select` returns a recorded value, it is one the user supplied for that prefix |
| `AddCommandParser.MandatoryPresence` | src/main/java/seedu/address/logic/parser/AddCommandParser.java:53-60 | the presence check over the seven mandatory prefixes holds exactly when name, phone, email, grade, institution, course and graduation year-month all have values |
| `AddCommandParser.Parse` | src/main/java/seedu/address/logic/parser/AddCommandParser.java:40-85 | the result is the add-usage format error if and only if a mandatory prefix has no value or the preamble is non-empty |
| `AddCommandParser.ConvertFields` | src/main/java/seedu/address/logic/parser/AddCommandParser.java:65-84 | once the check has passed, every failure is a converter's error and never the format error |
| `AddCommandParserProperties.TokenizedPrefixes` | src/main/java/seedu/address/logic/parser/AddCommandParser.java:41-60 | the tokenizer, outside this model, is represented only by the list of nine prefixes it is given, which covers every prefix; the mandatory prefixes that `Parse` checks are exactly those other than skill and status |
| `AddCommandParserProperties.PreambleRejected` | src/main/java/seedu/address/logic/parser/AddCommandParser.java:53-62 | a non-empty preamble gives the format error, whatever prefixes are present |
| `AddCommandParserProperties.MissingMandatoryRejected` | src/main/java/seedu/address/logic/parser/AddCommandParser.java:53-62 | any one mandatory prefix without a value gives the format error |
| `AddCommandParserProperties.FormatCheckPrecedesConversion` | src/main/java/seedu/address/logic/parser/AddCommandParser.java:53-72 | when the check fails, the result is the format error for every set of converters: no converter runs, even on malformed fields, and no applicant is built |
| `AddCommandParserProperties.OptionalPrefixesNotRequired` | src/main/java/seedu/address/logic/parser/AddCommandParser.java:42-60 | inputs that differ only in their skill and status values, one possibly having none, either both get the format error or neither does |
| `AddCommandParserProperties.FirstFailureIsFirst` | src/main/java/seedu/address/logic/parser/AddCommandParser.java:65-73 | the reference "first failure" of a run of steps is absent exactly when no step fails, and is otherwise the failure of a step preceded only by successful steps |
| `AddCommandParserProperties.ConversionErrorOrder` | src/main/java/seedu/address/logic/parser/AddCommandParser.java:65-83 | after a passed check, parsing fails exactly when a conversion step fails. The error is then the message of the first failing step in the order name, phone, email, grade, institution, graduation year-month, course, skills, status (status only when supplied), unchanged |
| `AddCommandParserProperties.GraduationYearMonthBeforeCourse` | src/main/java/seedu/address/logic/parser/AddCommandParser.java:70-72 | if name to institution convert and graduation year-month does not, that error is returned whatever course's converter would say |
| `AddCommandParserProperties.StatusAbsentUsesDefault` | src/main/java/seedu/address/logic/parser/AddCommandParser.java:76-78 | without a status value, replacing `parseStatus` changes nothing (it is never called), and a built applicant has the default status |
| `AddCommandParserProperties.StatusPresentIsParsed` | src/main/java/seedu/address/logic/parser/AddCommandParser.java:79-83 | with a status value and every other conversion succeeding, parsing succeeds exactly when `parseStatus` does; its status is then used, and otherwise its error is returned |
| `AddCommandParserProperties.SuccessfulApplicant` | src/main/java/seedu/address/logic/parser/AddCommandParser.java:65-84 | a successful parse passed the check. Each applicant field is its converter's output for that prefix's value. The skills are `parseTags` of all skill values, which is the empty list when no skill prefix was given. The status is the parsed one or the default |
| `AddCommandParserProperties.FieldsFromSuppliedValues` | src/main/java/seedu/address/logic/parser/AddCommandParser.java:65-80 | if the multimap returns one of the values it recorded, every single-valued field of a built applicant was converted from a value the user supplied for that field |

## Left out

- The tokenizer and the multimap's internals (`ArgumentTokenizer`, `ArgumentMultimap`) are not part of this model. Their result is an input value. The preamble is taken as the tokenizer delivers it, already trimmed.
- Which value `getValue` returns when a prefix is repeated is not fixed by the parser. `ArgumentMultimap` chooses the value; its code is not part of this model, and the multimap's `select` rule stands for its choice. The model only assumes, where a lemma needs it, that the rule returns one of the supplied values.
- The `ParserUtil` converters and their formats (phone digits, email shape, grade range, year-month pattern, status names, skill names) are not part of this model. Each converter is an arbitrary function that returns a value or an error message. How duplicate skill values collapse into the set is not modelled; that is `parseTags`'s business.
- The text of the usage message and its `String.format` assembly are left out. The format error is the single value `InvalidCommandFormat(AddUsage)`.
- A converter's exception is modelled as `InvalidValue(message)`, distinct from the format error. Java tells them apart only by their message.
- There is no separate error kind for a missing field and for an unexpected preamble: the code throws one and the same format error for both, and the model does the same.
- The status that `Applicant`'s status-less constructor fills in is defined in `Applicant`, which is not part of this model. It is the `defaultStatus` field of `Collaborators`.
- `AddCommand` execution, the record store and the command dispatcher are not part of this model. Only construction of the command is modelled.
- The `Stream.allMatch` machinery of `arePrefixesPresent` is modelled as a left-to-right recursion over the prefix list.
