# Morse auto-detecting converter — Dafny model

This project models `Convert` from `internal/service/service.go`, the one
function of the upload service that holds real logic. `Convert` receives the
text of an uploaded file. It does five things in order:

1. It trims leading and trailing white space (`strings.TrimSpace`).
2. It rejects input that is empty after trimming ("input is empty").
3. It classifies the trimmed string. A string holding any letter or digit is
   plain text. Otherwise the string must consist only of `.`, `-` and the
   literal space to be Morse code; anything else is rejected as ambiguous.
4. Plain text goes to `morse.ToMorse`.
5. Morse code goes to `morse.ToText`.

Modules:

- `GoStrings` (`go_strings.dfy`) models the two functions of Go's `strings`
  package that `Convert` calls: `TrimSpace`, written as Go's `TrimFunc` does it
  (cut the left end, then the right end), and `ContainsFunc`. Which runes are
  white space is a parameter.
- `GoUnicode` (`go_unicode.dfy`) holds `unicode.IsLetter`, `unicode.IsDigit`
  and `unicode.IsSpace` as a `Classes` value of three arbitrary predicates.
  `GoFacts` lists the few facts about Go's tables that some lemmas need: `.`,
  `-` and space are neither letters nor digits; `.` and `-` are not white
  space; space, tab and newline are.
- `Morse` (`morse_codec.dfy`) holds `morse.ToMorse` and `morse.ToText` as a
  `Codec` value of two arbitrary total functions. The `morse` package is not
  part of this model, so no symbol table is invented. Every property below
  holds for every codec, and for every `Classes` value that meets the
  preconditions the member states (several lemmas require `GoFacts`, and the
  examples also require facts about the runes they use).
- `Service` (`service.dfy`) models `Convert` and states its properties.

A Go string is modelled as the sequence of runes that `range` decodes from it.
The outcome type `Outcome` is `Ok(value)` for a converted string with a nil
error, or `Err(EmptyInput)` / `Err(Ambiguous)` for the two error values.
Go's error texts ("input is empty", "input is ambiguous: not plain text or
valid Morse code") are not modelled, only which error occurs.

Two points of behaviour that are easy to misread:

- Only the literal space is accepted inside Morse input (`r != ' '` at
  service.go:29). An interior tab or newline makes the input ambiguous, even
  though trimming removes such runes at the ends.
- After classification nothing can fail. `Convert` returns the result of
  `morse.ToMorse` / `morse.ToText` unchanged; those functions return no error,
  and an empty converted string is returned as a success, not rejected.

## Model

| member | source | states |
|---|---|---|
| `GoStrings.ContainsFunc` | internal/service/service.go:22-24 | true exactly when some rune of the string satisfies the predicate |
| `GoStrings.FirstNonSpace` | internal/service/service.go:16 | the left cut of trimming: every rune before it is white space, and the rune at it (if any) is not |
| `GoStrings.EndNonSpace` | internal/service/service.go:16 | the right cut of trimming: every rune from it on is white space, and the rune just before it (if any) is not |
| `GoStrings.TrimSpace` | internal/service/service.go:16 | the trimmed string has no white space at either end, and it is empty exactly when the input is all white space |
| `GoStrings.TrimSpaceParts` | internal/service/service.go:16 | trimming removes only white space, and only at the ends: the input is a white-space prefix, the trimmed string, and a white-space suffix |
| `GoStrings.TrimPadded` | internal/service/service.go:16 | a string without white space at its ends, padded with white space on both sides, trims back to exactly itself |
| `GoStrings.TrimSpaceIdempotent` | internal/service/service.go:16 | trimming a trimmed string changes nothing |
| `GoStrings.TrimSpacePadding` | internal/service/service.go:16 | extra white space at either end does not change the trimmed string |
| `Service.ScanMorse` | internal/service/service.go:27-32 | the rune scan succeeds exactly when every rune is '.', '-' or ' ' |
| `Service.Convert` | internal/service/service.go:15-41 | the empty-input error exactly when the input is all white space; otherwise ToMorse of the trimmed string whenever it holds a letter or digit; otherwise the ambiguity error exactly when it holds a rune other than '.', '-', ' '; otherwise ToText of the trimmed string. The premises are exclusive and cover every input, so exactly one outcome holds, in this order of precedence |
| `Service.ConvertIgnoresSurroundingSpace` | internal/service/service.go:11-16 | Convert gives the same outcome on the input, on its trimmed form, and on the input with white space added at either end |
| `Service.InteriorWhitespaceAmbiguous` | internal/service/service.go:27-32 | a white-space rune other than ' ' (tab, newline) inside otherwise valid Morse text makes the input ambiguous |
| `Service.OuterWhitespaceTrimmed` | internal/service/service.go:15-17 | any white space around Morse text is trimmed away, and the Morse text goes to ToText |
| `Service.ErrorsIndependentOfCodec` | internal/service/service.go:35-40 | whether Convert fails, and with which error, does not depend on what ToMorse and ToText return |
| `Service.EmptyConversionIsSuccess` | internal/service/service.go:35-40 | once classification succeeds, an empty string from the direction taken (ToMorse or ToText) is returned as a success |
| `Service.ExampleEmpty` | internal/service/service.go:16-19 | "" and " \t\n" give the empty-input error |
| `Service.ExampleText` | internal/service/service.go:21-24 | "SOS" and "SOS ..." both go to ToMorse unchanged |
| `Service.ExampleMorse` | internal/service/service.go:39-40 | "\n... --- ...\n" goes to ToText as "... --- ..." |
| `Service.ExampleSymbols` | internal/service/service.go:27-32 | "#$%" gives the ambiguity error |

## Left out

- The `morse` package (`morse.ToMorse`, `morse.ToText`, its symbol table) is not part of this model. Its functions are arbitrary total functions, so no round-trip or table property is stated.
- The Unicode tables behind `unicode.IsLetter`, `unicode.IsDigit` and `unicode.IsSpace` are foreign library data. They are arbitrary predicates here; lemmas that need a fact about a specific rune state it as a precondition (`GoFacts` and the example lemmas).
- UTF-8 decoding is not modelled. A string is its sequence of decoded runes, so the replacement of invalid bytes by U+FFFD when `TrimSpace` (through `TrimFunc`), `ContainsFunc` and `range` decode runes is not represented, and `morse.ToMorse` / `morse.ToText`, which in Go receive the raw bytes of the trimmed string, here receive its runes.
- The empty string that Go returns beside an error is not represented. `Err` carries no string.
- Go's `TrimSpace` has an ASCII fast path before it falls back to `TrimFunc`. Only the result is modelled, which is the same either way.
- HTTP handling, multipart parsing, file I/O, timestamp-derived file names (internal/handlers/handlers.go), server wiring and logging (internal/server/server.go) and process start-up (cmd/main.go) are I/O plumbing and are not modelled.
