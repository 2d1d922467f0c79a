# easytags tag generator, modelled in Dafny

easytags rewrites the struct tags of a Go source file. For each named field of each struct it builds a new tag literal from the field's first name and a list of requested tag names, such as `json,xml`. An existing `name:"value"` entry for a requested name is kept verbatim. A missing one is generated from the snake-cased field name.

This project models the decision logic of `easytags.go` as pure Dafny functions over `seq<char>` and proves what they do:

- `Snake` (`ToSnake`): the rune-by-rune snake-case converter. It inserts `_` before an upper-case rune that is not first and has a lower-case neighbour on its right or its left, then lower-cases everything.
- `TagSearch`: the existing-tag lookup. This is the leftmost match of the regular expression `name:"[^"]+"`, with the name read literally. `MatchAt` states declaratively what a match is; the search functions are proved to find exactly the leftmost one.
- `Tags` (`parseTags`): one entry per requested name, in request order, joined by single spaces inside backquotes. No requested name gives the empty string.
- `Fields` (`processTags`): the per-field driver. A field is a record with a list of names and an optional tag literal.
- `TagList`: the tag-name list that `main` builds. It splits the second argument on commas, trims each piece, and falls back to `json` when the list is empty and `-r` is off.
- `Chars`, `Text`, `Optional`: ASCII letter case, Go's white-space set, `strings.Join`, and an option type.
- `Scenarios`: a struct shaped like the one `easytags_test.go` checks, plus inputs that show how the search behaves.

## Behaviour worth knowing

- Entries for names that were not requested are dropped from the tag (`Scenarios.DropsUnrequestedEntries`).
- The search for an existing entry is not anchored at a key boundary, so `myjson:"x"` supplies the `json` entry (`Scenarios.MatchesInsideLongerKey`).
- An existing empty value such as `json:""` is not a match, so it is regenerated from the field name (`Scenarios.RegeneratesEmptyValue`).
- Every named field is tagged, exported or not. With an empty tag list, the tag literal is set to the empty string (`Fields.ProcessField`).
- Applying the tool twice is proved to give the same tags when one name is requested (`Tags.ParseTagsIdempotent`, `Fields.ProcessTagsIdempotent`). With several names it can give the same tags (`Scenarios.TwoNamesSometimesIdempotent`) or different ones. With names `json,db` and an existing value that ends in `db:`, the second pass finds a `db:"` match that starts inside the json value (`Scenarios.TwoNamesNotIdempotent`).

## Model

| member | source | states |
|---|---|---|
| `Chars.ToLower` | easytags.go:156 | upper-case ASCII letters map to their lower-case partner; every other rune is unchanged; the result is never upper case |
| `Snake.SnakeCase` | easytags.go:147-159 | the append loop, rune by rune, computes exactly `ToSnake` of its input |
| `Snake.SnakeShape` | easytags.go:152-157 | output length is input length plus the number of runes that break (a rune breaks when `i > 0`, it is upper case, and rune `i+1` or `i-1` is lower case). Lower-cased rune `i` sits at `i` plus the breaks up to and including it. Position `i` plus the breaks before it holds an inserted `_` when rune `i` breaks, and the lower-cased rune `i` otherwise |
| `Snake.NoLeadingUnderscore` | easytags.go:153 | the first output rune is the first input rune lower-cased; no underscore is ever inserted at the front |
| `Snake.SnakeAlphabet` | easytags.go:154-156 | every output rune is an inserted `_` or a lower-cased input rune; the output has no upper-case letter and no quote unless the input had one |
| `Snake.DeleteInserted` | easytags.go:151-158 | deleting the inserted underscores from the output gives the input mapped through `ToLower` |
| `Snake.SnakeIdempotent` | easytags.go:147-159 | converting an already converted string changes nothing |
| `Snake.SnakeExampleTestField2` | easytags_test.go:51 | `TestField2` becomes `test_field2` |
| `Snake.SnakeExampleUserID` | easytags.go:144-145 | `UserID` becomes `user_id`: the acronym is lower-cased and preceded by one underscore |
| `Snake.SnakeExampleCSRFToken` | easytags.go:144-145 | `CSRFToken` becomes `csrf_token`: one break only, where the acronym meets `Token` |
| `Snake.SnakeExampleID` | easytags.go:144-145 | `ID` becomes `id` |
| `TagSearch.MatchEnd` | easytags.go:107 | returns an end exactly when a match of `name:"[^"]+"` starts at the given position, and that end closes the match |
| `TagSearch.FindFrom` | easytags.go:107-108 | finds a match at or after `from` exactly when one exists, and no match starts between `from` and the one it returns |
| `TagSearch.LeftmostMatch` | easytags.go:107-108 | is present exactly when the tag text holds some match; its text is the match that starts furthest left |
| `TagSearch.MatchShape` | easytags.go:107 | a match is the name, `:"`, one or more non-quote characters, and `"` |
| `TagSearch.MatchTextWhole` | easytags.go:107 | a text has that shape exactly when `name:"[^"]+"` matches the whole of it |
| `Tags.EntryChoice` | easytags.go:107-113 | when the current tag text holds a match of `name:"[^"]+"`, the entry is the text of the leftmost one, copied verbatim; when it holds none, the entry is `name:"` + snake-cased field name + `"` |
| `Tags.EntryShape` | easytags.go:106-113 | every entry starts with the requested name and `:"` and ends with `"`. Its value is non-empty for a non-empty field name and quote-free for a quote-free one |
| `Tags.Entries` | easytags.go:105-116 | exactly one entry per requested name, in request order |
| `Tags.ParseTags` | easytags.go:101-125 | the result is empty exactly when no name is requested; otherwise it is the entries joined by single spaces inside backquotes |
| `Tags.ParseTagsAppend` | easytags.go:105-122 | requesting one more name keeps the earlier entries and adds that name's entry after a space, before the closing backquote |
| `Tags.NoMatchAtBackquote` | easytags.go:107-110 | a tag written as an entry in backquotes has no match of `name:"[^"]+"` at its opening backquote, whatever the name |
| `Tags.WrappedEntryFound` | easytags.go:107-110 | an entry alone in backquotes is found again, verbatim, by the search for its name |
| `Tags.ParseTagsIdempotent` | easytags.go:105-124 | with one requested name, building the tag from the tag it built gives the same tag |
| `Fields.ProcessField` | easytags.go:128-141 | a field without names is untouched. A named field keeps its names and gets `parseTags` of its first name and current tag text (empty when it had no tag): a backquoted literal, or `""` when the list is empty |
| `Fields.ProcessTags` | easytags.go:127-142 | every field of the list is processed on its own, and the list keeps its length and order |
| `Fields.ProcessTagsIdempotent` | easytags.go:127-142 | with one tag name, processing a struct twice gives what processing it once gave |
| `TagList.Split` | easytags.go:41 | the pieces hold no comma, there is one more piece than there are commas, and joining them with commas gives back the argument |
| `TagList.TrimSpace` | easytags.go:43 | the result has no white space at either end and is a slice of the input with only white space cut off both sides |
| `TagList.TrimIdempotent` | easytags.go:43 | trimming twice is trimming once |
| `TagList.TagNames` | easytags.go:37-49 | with no arguments there is no list (usage). With two arguments the list is the trimmed comma-separated pieces: one more than the commas, each comma-free and trimmed. Otherwise it is `["json"]`, or empty under `-r` |
| `TagList.TagNamesRoundTrip` | easytags.go:40-45 | a list argument without white space is read back exactly: joining the names with commas gives it |
| `TagList.EmptyListArgument` | easytags.go:40-49 | an empty list argument yields one empty name, not the `json` default |
| `Scenarios.KeepsExcludedTag` | easytags_test.go:42-46 | an existing `` `json:"-"` `` tag on `Field1` is kept |
| `Scenarios.GeneratesSnakeTag` | easytags_test.go:48-52 | `TestField2` without a tag gets `` `json:"test_field2"` `` |
| `Scenarios.RegeneratesEmptyValue` | easytags.go:107-113 | an existing `json:""` is not a match and is regenerated from the field name |
| `Scenarios.MatchesInsideLongerKey` | easytags.go:107-110 | `myjson:"x"` supplies the `json` entry `json:"x"` |
| `Scenarios.DropsUnrequestedEntries` | easytags.go:105-122 | a `custom` entry that was not requested is dropped; `json` is reused and `xml` is generated, in request order |
| `Scenarios.TwoNamesNotIdempotent` | easytags.go:105-117 | with names `json,db`, a second pass turns `db:"id"` into `db:" db:"` |
| `Scenarios.TwoNamesSometimesIdempotent` | easytags.go:105-117 | with names `json,xml` and no tag on `ID`, the first pass gives `` `json:"id" xml:"id"` `` and the second pass gives it again |
| `Scenarios.TestStruct` | easytags_test.go:34-53 | on a struct shaped like the one the test checks, `Field1` keeps its tag, `TestField2` gets a snake-cased one, and the embedded field stays without a tag |

## Left out

- File handling in `GenerateTags` is not modelled: parsing, the AST walk, re-creating the file, formatting and flushing. These are I/O and Go toolchain calls. The AST walk does not descend into a struct it has processed, so nested struct types are not visited; that is also not modelled.
- `main` is not modelled beyond the tag list: flag parsing, glob expansion over every argument, printing of the usage text and errors. `TagList.TagNames` returns no list where `main` prints the usage text.
- Chars.ToLower: letter case covers ASCII only. Go's `unicode.IsUpper`, `IsLower` and `ToLower` also act on non-ASCII letters, which the model treats as caseless.
- TagSearch.LeftmostMatch: the requested name is searched as a literal string. This agrees with the regular expression only for names free of regular-expression metacharacters. A name that is not a valid expression makes `regexp.MustCompile` panic, which is not modelled.
- Conversion of invalid UTF-8 to runes is not modelled; strings are sequences of Unicode scalar values.
- The position and token-kind bookkeeping when `processTags` creates an empty tag literal is not modelled; it has no behavioural content. How the formatter prints an empty tag literal is the formatter's business.
- Tags.ParseTagsIdempotent: proved for one requested name only, with a non-empty, quote-free field name. With several names the property can fail (`Scenarios.TwoNamesNotIdempotent`).
- Fields.ProcessTagsIdempotent: same restriction as `Tags.ParseTagsIdempotent`, for every named field's first name.
