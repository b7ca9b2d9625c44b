# jgovalidator validation rules in Dafny

jgovalidator adds a few custom rules to a struct-tag validation engine. These
are `int`, `float`, `date`, `rfc3339`, `rfc3339WithoutZone`, `datetime` and
`notNull`. The engine calls each rule on one tagged field. The rule reads the
field's string form and returns pass or fail. This project models those rules
as Dafny functions over `string` and proves what language each one accepts.

- `chars.dfy` (module `Chars`) holds the character classes of the patterns.
  These are the ASCII digits (RE2's `\d` and `[0-9]`), the signs and the
  exponent markers. It also holds `Scan`, which runs a finite automaton over a
  string.
- `patterns.dfy` (module `Patterns`) covers the three regular expressions
  `Int`, `Float` and `DateExp`. Each one gets two descriptions:
  - a reference language written group by group from the pattern, with an
    existential split into the optional groups;
  - a recognizer, which stands for `MatchString`. For the anchored `Int` and
    `Float` patterns this is an automaton run by `Scan`. For the unanchored
    `DateExp` it is a left-to-right search.

  Lemmas prove that each recognizer accepts exactly its reference language.
- `validator.dfy` (module `Validator`) holds the rules themselves, the two
  time layouts, and the properties of the rules.

Go's `time.Parse` is not part of this model. The time-based rules take a
parameter `parses: (layout, value) -> bool` that stands for "`time.Parse`
returned no error". `RFC3339` is the value of Go's `time.RFC3339` constant,
`"2006-01-02T15:04:05Z07:00"`.

The doc comment at validator.go:74 says the empty string is valid for `int`.
The code at validator.go:76-78 rejects it. The model follows the code
(`Validator.EmptyString`). The doc comment at validator.go:87 calls `IsDate`
"IsRFC3339". That is only a mislabel, and the model follows the code.

Go strings are byte sequences and Dafny strings are character sequences. A Go
string maps to the sequence of characters Go's `regexp` decodes from it: each
valid UTF-8 encoding becomes its character, and each byte that is not part of
one becomes U+FFFD. Under that mapping no verdict changes. Every pattern
matches only ASCII characters, so neither a multi-byte character nor U+FFFD
ever takes part in a match, and a string is empty under both views at exactly
the same times.

## Model

| member | source | states |
|---|---|---|
| `Validator.IsNull` | validator.go:113-116 | true exactly when the string is empty |
| `Validator.NotNull` | validator.go:69-72 | passes for every input |
| `Validator.IsInt` | validator.go:74-80 | passes exactly for the strings of the `Int` language, so never for the empty string |
| `Validator.IsFloat` | validator.go:82-85 | passes exactly for the non-empty strings of the `Float` language |
| `Validator.IsDate` | validator.go:87-94 | passes exactly when some ten consecutive characters have the shape `dddd-dd-dd`, so never for the empty string |
| `Validator.IsTime` | validator.go:118-122 | true exactly when parsing `str` under `format` reports no error |
| `Validator.IsRFC3339` | validator.go:96-99 | true exactly when the string parses under the `time.RFC3339` layout |
| `Validator.IsRFC3339WithoutZone` | validator.go:101-104 | true exactly when the string parses under the layout `2006-01-02T15:04:05` |
| `Validator.IsDatetime` | validator.go:106-109 | passes exactly when `rfc3339` or `rfc3339WithoutZone` passes |
| `Validator.EmptyString` | validator.go:75-93 | the empty string is null and fails `int`, `float` and `date`, although the `Float` pattern alone matches it |
| `Validator.NullTestRedundant` | validator.go:75-93 | for `int` and `date`, the result equals the pattern match alone, because neither pattern matches the empty string |
| `Validator.IntExamples` | validator.go:19 | `0`, `-0`, `+42`, `7` and `-42` pass; `007`, `+-1`, `1a`, `-` and the empty string fail |
| `Validator.IntNoLeadingZero` | validator.go:19 | in an accepted integer, a `0` as the first digit is the whole digit run, and a sign is followed by at least one digit |
| `Validator.IntCharacters` | validator.go:19 | an accepted integer is digits, with at most a sign at position 0 |
| `Validator.IntIsFloat` | validator.go:19-20 | every string `int` accepts is also accepted by `float` |
| `Validator.FloatAcceptsDecimal` | validator.go:20 | `3.14` and `5.` pass |
| `Validator.FloatAcceptsScientific` | validator.go:20 | `-0.5e10` passes |
| `Validator.FloatAcceptsDegenerate` | validator.go:20 | because every group of the pattern is optional, a lone `.` and the mantissa-less `e5` pass |
| `Validator.FloatRejectsBareSign` | validator.go:20 | `-.5` and `+` fail, because a sign needs a digit right after it |
| `Validator.FloatRejectsOther` | validator.go:20 | `abc` and the empty string fail |
| `Validator.FloatCharacters` | validator.go:20 | an accepted float uses only `0-9 + - . e E`, has at most one `.` and at most one exponent marker, and has a sign only at position 0 or right after the marker |
| `Validator.DateExamples` | validator.go:21 | `2024-01-15` and `xx2024-01-15xx` pass; `not-a-date` and the empty string fail |
| `Validator.DateTooShort` | validator.go:21 | every string shorter than ten characters fails `date` |
| `Validator.DateExtension` | validator.go:21 | if `s` passes `date`, so does `p + s + q` for all strings `p` and `q` |
| `Patterns.IntLang` | validator.go:19 | the strings `Int` matches in full: an optional `+`/`-`, then either the single digit `0` or a digit 1-9 followed by any ASCII digits; none of them is empty |
| `Patterns.FloatLang` | validator.go:20 | the strings `Float` matches in full: an optional signed digit run, then an optional `.` with any digits, then an optional `e`/`E` with an optional sign and at least one digit, and nothing else; the empty string is one of them |
| `Patterns.DateLang` | validator.go:21 | the strings in which `DateExp` finds a match: some ten consecutive characters are four digits, `-`, two digits, `-`, two digits; every such string has at least ten characters |
| `Validator.TimeLayouts` | validator.go:22 | `RF3339WithoutZone` is `2006-01-02T15:04:05`, which is the `RFC3339` layout `2006-01-02T15:04:05Z07:00` of Go's `time.RFC3339` with its `Z07:00` zone offset removed |
| `Patterns.MatchInt` | validator.go:19 | the `Int` recognizer accepts exactly the `Int` language |
| `Patterns.MatchFloat` | validator.go:20 | the `Float` recognizer accepts exactly the `Float` language, the empty string included |
| `Patterns.MatchDate` | validator.go:21 | the date search succeeds exactly when some position starts a date-shaped window |
| `Patterns.ScanIntStart` | validator.go:19 | the `Int` automaton accepts a string exactly when the pattern's groups can match all of it |
| `Patterns.ScanFloatStart` | validator.go:20 | the `Float` automaton accepts a string exactly when it splits into the optional integer, fraction and exponent groups |
| `Patterns.FloatLayout` | validator.go:20 | every string of the `Float` language splits at some `i <= j` into the three optional groups (`s[..i]` empty or a signed digit run, `s[i..j]` empty or a `.` and digits, `s[j..]` empty or an `e`/`E`, an optional sign and digits); so `[0,i)` holds digits with a sign only at 0, `[i,j)` digits with a `.` only at `i`, and `[j,|s|)` digits with an `e`/`E` only at `j` and a sign only at `j+1` after it |
| `Patterns.SearchDateFinds` | validator.go:21 | the search over start positions finds a match exactly when one exists |

## Left out

- `GetValidator` (validator.go:34-53) is left out. It lazily creates a global validator and registers the rules and a type function with a third-party engine, which is not part of this model.
- `ValidateValuer` (validator.go:56-67) is left out. It uses reflection and `database/sql/driver.Valuer` dispatch into `sql.Null*` types, which are not part of this model.
- The `Validate` wrapper and the `FieldLevel` plumbing (validator.go:14-16) are left out. The rules take the field's string directly. For a field that is not a string, Go's `Field().String()` yields a placeholder such as `<int Value>`, and the model does not cover that.
- `time.Parse` is not modelled. Its RFC 3339 section 5.6 timestamp grammar, its range checks and its zone handling all live in Go's standard library. `IsTime`, `IsRFC3339`, `IsRFC3339WithoutZone` and `IsDatetime` are therefore stated relative to the `parses` parameter, and concrete timestamps cannot be decided.
- Go's `regexp` engine is not modelled. Each pattern's language is written out directly, and the recognizers decide match or no match. They do not report match positions.
