# Paste links and model replies of the coding-challenge bot

This project models the pure string handling in `ai_integration.py` of a
Discord bot that runs programming challenges. The network calls around that
handling are not modelled. Three pieces are covered.

- **Paste-link normalisation** (`fetch_code_from_url`). Before a submission's
  code is downloaded, a link that names `pastebin.com` and holds no `/raw/`
  loses one trailing `/`. Then every `pastebin.com/` in it becomes
  `pastebin.com/raw/`. Matching is plain, case-sensitive substring search.
- **Fence clean-up of a model reply** (`generate_ai_challenge` and
  `get_ai_score`). The reply is stripped of surrounding whitespace. Then every
  "```json" is deleted, and then every "```".
- **What is made of the cleaned reply.** The challenge generator rejects an
  empty cleaned text without parsing it. It reads "titulo" and "descricao"
  from a decoded object. Grading reads "nota" (default 0) and
  "justificativa" (default "Nenhuma justificativa fornecida."). An error
  path carries a fixed message, the upstream error text, or "Erro: "
  followed by the text of any other exception. That exception may come from
  the parser, or from `.get` on a decoded value that is no object. In the
  second case the text names the value's Python type.

Modules:

- `Strings`: Python's `in` (`Contains`, with an index-based `OccursAt`) and
  `str.replace` (`ReplaceAll`), both on `seq<char>`.
- `Whitespace`: `str.strip()`, over the code points for which `str.isspace()`
  holds.
- `Fences`: the clean-up.
- `PasteLinks`: the URL rewrite.
- `Json`: decoded values and `dict.get`.
- `AiReplies`: both operations from the end of the model call onward.

The call to the model is an input (`CallResult`). `json.loads` is a function
parameter (`parse`).

The grading prompt asks the model for "Um número inteiro de 0 a 5"
(ai_integration.py:126). Nothing enforces it: line 138 returns
`data.get('nota', 0)` as it came, and the model does the same
(`AiReplies.AssessmentKeepsAnyGrade`).

## Model

| member | source | states |
|---|---|---|
| Strings.Contains | ai_integration.py:92 | Python's `p in s` for strings: the empty text occurs in every text, and a text that occurs in `s` is no longer than `s`. The index-based meaning is `Strings.ContainsIffOccurs`. |
| Strings.ReplaceAll | ai_integration.py:95 | Python's `s.replace(pat, rep)` for a non-empty `pat`, leftmost and non-overlapping: a replacement no longer than the pattern never lengthens the text, and one no shorter never shortens it. What it replaces is stated by the lemmas below. |
| Strings.ContainsIffOccurs | ai_integration.py:92 | Python's `p in s` holds exactly when `p` occurs in `s` at some index. |
| Strings.ReplaceAllPassThrough | ai_integration.py:95 | A text in which the pattern does not occur comes back from `replace` unchanged. |
| Strings.ReplaceAllIntroduces | ai_integration.py:95 | A text in which the pattern occurs gives a result in which the replacement occurs. |
| Strings.ReplaceAllUndo | ai_integration.py:95 | Replacing `a` by `b` and then `b` by `a` restores the input when the input holds no `b` and `b`'s first character does not recur in `b`. Every character other than the replaced ones is kept, in order. |
| Strings.ReplaceAllExtendsEvery | ai_integration.py:95 | When the replacement `b` extends the pattern `a` and `b`'s first character does not recur in `b`, every occurrence of `a` in the output is the start of an inserted `b`: no match is left behind. Both conditions hold for "pastebin.com/" and "pastebin.com/raw/". |
| PasteLinks.DropTrailingSlash | ai_integration.py:93-94 | The result is a prefix of the URL, at most one character shorter. It is shorter exactly when the URL ends with `/`. |
| PasteLinks.NormalizeUrl | ai_integration.py:92-95 | A URL without `pastebin.com`, or with `/raw/`, is returned unchanged. A rewritten URL that still held `pastebin.com/` after trimming now holds `/raw/`. |
| PasteLinks.NormalizeUrlRoundTrip | ai_integration.py:92-95 | Turning each `pastebin.com/raw/` of a rewritten URL back into `pastebin.com/` gives the input minus at most one trailing slash. So only `raw/` segments were inserted and every other character is kept in order. |
| PasteLinks.NormalizeUrlRewritesEveryLink | ai_integration.py:95 | In a rewritten URL every `pastebin.com/` is followed by `raw/`. |
| PasteLinks.NormalizeUrlIdempotent | ai_integration.py:92-95 | Normalising twice equals normalising once exactly when the URL does not lose a slash again. A URL loses a slash again when the guard holds, no `pastebin.com/` is left after trimming, and the URL ends in `//`. |
| PasteLinks.NormalizeUrlTrimOnly | ai_integration.py:92-95 | When the guard holds but no `pastebin.com/` is left after trimming, only the trailing slash goes, and the guard still holds for the result. |
| PasteLinks.NormalizeUrlNotIdempotent | ai_integration.py:92-95 | Example: `https://pastebin.com:80//` loses one slash on each of two passes. |
| PasteLinks.NormalizeUrlBareHost | ai_integration.py:92-95 | `https://pastebin.com/` becomes `https://pastebin.com`, with no `/raw/` added. |
| PasteLinks.NormalizeUrlPasteLink | ai_integration.py:92-95 | `pastebin.com/Xy12ab/` becomes `pastebin.com/raw/Xy12ab`. |
| PasteLinks.NormalizeUrlRawLink | ai_integration.py:92 | Example: the raw link `https://pastebin.com/raw/Xy12ab` is left exactly as it is. The general rule is the second clause of `PasteLinks.NormalizeUrl`. |
| Whitespace.Strip | ai_integration.py:69 | The result begins and ends with no whitespace, and it sits in the input between a whitespace-only prefix and a whitespace-only suffix. |
| Whitespace.StripEmptyIffBlank | ai_integration.py:69 | Stripping gives the empty text exactly when the input is all whitespace. |
| Whitespace.StripPadding | ai_integration.py:69 | Stripping a non-empty, already-stripped text with whitespace around it gives that text. |
| Fences.CleanFences | ai_integration.py:69 | The cleaned reply is no longer than the reply and contains neither "```" nor "```json". |
| Fences.NoFenceSurvives | ai_integration.py:69 | Deleting every "```" never leaves a "```" made of leftover backticks. |
| Fences.CleanFencesPassThrough | ai_integration.py:69 | A reply with no surrounding whitespace and no backticks passes through unchanged. |
| Fences.CleanFencesUnwrapsBlock | ai_integration.py:136 | A payload without backticks, wrapped in "```json ... ```" with whitespace around the block, comes out as exactly the payload. |
| Fences.CleanFencesEmptyBlock | ai_integration.py:69 | "```json```" cleans to the empty text. |
| Fences.CleanFencesBlankBlock | ai_integration.py:69 | " ```json ``` " cleans to a single space, not to the empty text. |
| Fences.CleanFencesTaggedObject | ai_integration.py:136 | "```json{}```" cleans to "{}". |
| Fences.FencesInOtherOrderKeepTag | ai_integration.py:69 | Deleting "```" before "```json" would leave "json{}" from "```json{}```", so the order of the two deletions matters. |
| Json.TypeName | ai_integration.py:85-87 | A decoded value's Python type name is "dict" exactly for an object. The message that names the type of a non-object is stated by `AiReplies.DraftFromCleaned` and `AiReplies.AssessCleaned`. |
| Json.Get | ai_integration.py:138 | `dict.get` gives a present key's value (even `None`) and the default for a missing key. |
| AiReplies.DraftChallenge | ai_integration.py:63-87 | A failed call passes its message on, and an empty error text falls through to the `'NoneType'` error. A reply that cleans to the empty text is rejected with the empty-reply message. A decode error gives the invalid-format message. Any other parser exception gives "Erro: " and its text. A decoded non-object gives "Erro: '<type>' object has no attribute 'get'". The model's `Drafted` tag marks exactly the cleaned replies that decode to an object, and a draft holds the object's "titulo" and "descricao" entries, `None` where missing. The Python result is a bare pair without that tag (see `AiReplies.AsPair`). |
| AiReplies.DraftFromCleaned | ai_integration.py:71-87 | The same cases for a cleaned text. An empty text gives the empty-reply message. A decode error gives the invalid-format message. Another parser exception gives "Erro: " and its text. An object is drafted from its entries. Any other value gives the `AttributeError` text naming its type. |
| AiReplies.AsPair | ai_integration.py:66-87 | The pair `generate_ai_challenge` returns. A draft's pair is its title and its description. A rejection's pair is `None` and its reason. So the first element is not `None` exactly when the draft has a title. |
| AiReplies.DraftLooksRejectedIff | ai_integration.py:66-87 | A draft's pair equals a rejection's exactly when the draft has no title and its description is the reason as a string. A titleless draft with a missing or non-string description can be told apart. |
| AiReplies.TitlelessDraftLooksRejected | ai_integration.py:75-84 | An object whose only entry is "descricao" holding a text `m` is drafted. Yet its pair is `(None, m)`, the same as a rejection with reason `m`. |
| AiReplies.KeylessDraftIsNoneNone | ai_integration.py:75-80 | An object with neither "titulo" nor "descricao" (English keys, say) is drafted as `(None, None)`. |
| AiReplies.AssessSubmission | ai_integration.py:130-145 | A failed call scores 0 with its message. A decode error scores 0 with the invalid-format message. Another parser exception scores 0 with "Erro: " and its text. A non-object scores 0 with "Erro: '<type>' object has no attribute 'get'". An object gives "nota" (default 0) and "justificativa" (default message). |
| AiReplies.AssessCleaned | ai_integration.py:136-145 | The same cases for a cleaned text: decode error, other parser exception, object with its defaults, and non-object with the `AttributeError` text naming its type. |
| AiReplies.DraftRejectsEmptyBlock | ai_integration.py:69-73 | An empty "```json```" block with whitespace around it is rejected as empty, whatever the parser would say. |
| AiReplies.DraftRejectsBlankReply | ai_integration.py:69-73 | A whitespace-only reply is rejected as empty, whatever the parser would say. |
| AiReplies.AssessmentOfEmptyBlock | ai_integration.py:136-142 | Grading has no empty check, so an empty block reaches the parser. A parser that rejects the empty text gives grade 0 and the invalid-format message. |
| AiReplies.DraftIgnoresFencing | ai_integration.py:69-80 | Wrapping a stripped, backtick-free payload in a "```json" block with whitespace around it leaves the draft unchanged. |
| AiReplies.AssessmentIgnoresFencing | ai_integration.py:136-138 | The same holds for the grade and justification. |
| AiReplies.AssessmentKeepsAnyGrade | ai_integration.py:138 | Whatever integer the model puts in "nota", negative or above 5, is the grade. No clamp is applied. |

## Left out

- Network I/O. The HTTP calls in `_call_ollama` (ai_integration.py:12-45) and the download in `fetch_code_from_url` (ai_integration.py:97-107) are left out. The call's outcome is an input, and what the normalised URL is used for is not modelled.
- `json.loads`. It is a parameter; the decoder and its exact acceptance rules are not modelled. Its outcome is a value, a `JSONDecodeError`, or any other exception with its text. Which inputs raise which exception is not modelled.
- Prompt text and environment configuration (ai_integration.py:5-8, 49-61, 111-128). These are string interpolation for the model and `os.getenv` reads.
- Logging with `print`. It has no effect on any result.
- `database.py` and `main.py`. They hold ORM declarations and bot start-up, with no logic to model.
- Challenge lifecycle, votes and ranking. No source file implements them.
- Strings.ReplaceAll: models `str.replace` only for a non-empty pattern. The source only replaces the non-empty literals "pastebin.com/", "```json" and "```".
- Json.Value: a float is a `real`. NaN, infinities and rounding are not modelled, and no operation here inspects a float.
- AiReplies.DraftChallenge: the `Drafted`/`Rejected` tag is the model's own. The source returns a bare pair. There, a draft without "titulo" whose "descricao" is a string looks like a rejection `(None, reason)`. A caller can tell the two apart when the title is not `None` or the description is not a string. `AiReplies.AsPair`, `AiReplies.TitlelessDraftLooksRejected` and `AiReplies.KeylessDraftIsNoneNone` state this.
- AiReplies.DraftChallenge: the model also covers a successful call with empty content and a failure with empty error text. `_call_ollama` never returns either, so those cases are modelled only as the Python would behave.
