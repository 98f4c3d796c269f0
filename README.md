# Keyword dispatch of the medical-clinic WhatsApp chatbot

The chatbot's webhook receives one inbound WhatsApp message per request. It
takes the message `Body` and lower-cases it. It then tests the lower-cased
text for four Spanish keywords in a fixed order: `hola`, `agendar`,
`confirmar`, `cancelar`. The first keyword that occurs anywhere in the text
selects one canned reply. When none occurs, an "options" reply listing the
commands is sent. This project models that classifier and the choice of
reply text, and proves how they behave.

Layout:

- `text.dfy`, module `Text`: the two string operations the webhook relies
  on. `ToLower` models `str.lower()` on ASCII letters. `Contains(s, k)`
  models Python's `k in s` on strings, and `IsSubstring` is its declarative
  meaning.
- `webhook.dfy`, module `Webhook`: `Intent` has one value per branch of the
  `if`/`elif` chain. `Dispatch` is the chain on the lower-cased text,
  `Classify` lower-cases and then dispatches, `Reply` gives each branch's
  fixed text, and `Respond` is the one message the webhook answers with.
  `Rules` and `Selects` restate the chain as an ordered first-match-wins
  rule list, an independent reference for `Classify`.
- `examples_of_messages.dfy`, module `MessageExamples`: concrete messages
  and the reply each one gets.

What is proved:

- Each branch is characterised in both directions by which keywords occur
  in the lower-cased body. Earlier keywords shadow later ones.
- `Classify` agrees with the first-match-wins reading of the rule list for
  every body.
- Matching ignores ASCII case.
- Matching is by substring, not by word: a keyword inside a longer word
  such as "Holanda" still fires its rule.
- The five reply texts are pairwise distinct. So every message gets exactly
  one reply, and that reply identifies the intent.
- The commands the bot itself advertises ("AGENDAR cita", "CONFIRMAR cita",
  "CANCELAR cita") select their own rules when sent back.
- The usage example in the schedule-help text ("AGENDAR 25 enero 3pm")
  brings back only the same help text, because this webhook has no booking
  branch.

## Model

| member | source | states |
|---|---|---|
| `Text.Contains` | app.py:15-24 | Python's `k in s` as a left-to-right scan; what it computes is stated by `Text.ContainsCorrect` |
| `Webhook.Dispatch` | app.py:15-28 | the `if`/`elif` chain on the lower-cased message; characterised by `Webhook.GreetIff` to `Webhook.UnknownIff` and `Webhook.ClassifyIsFirstMatch` |
| `Webhook.Classify` | app.py:8-28 | lower-case the `Body`, then dispatch; characterised by `Webhook.GreetIff` to `Webhook.UnknownIff`, `Webhook.ClassifyIsFirstMatch` and `Webhook.ClassifyCaseInsensitive` |
| `Webhook.Reply` | app.py:15-28 | the five reply texts of lines 16, 19, 22, 25 and 28, character for character; `Webhook.ReplyInjective` proves them pairwise distinct |
| `Webhook.Respond` | app.py:13-30 | the one message put into the response; `Webhook.ExactlyOneReply` ties it to the classification |
| `Text.LowerChar` | app.py:8 | the lowered character is never an ASCII capital; a character changes exactly when it is a capital `A`-`Z`, and then it becomes its own lower-case letter (same distance from `a` as the capital from `A`) |
| `Text.ToLower` | app.py:8 | lower-casing keeps the length of the message |
| `Text.ToLowerAt` | app.py:8 | lower-casing acts on every character independently: character `i` of the result is the lowered character `i` of the input |
| `Text.ToLowerIsLower` | app.py:8 | the lower-cased message contains no ASCII capital |
| `Text.ToLowerFixesLower` | app.py:8 | a message with no ASCII capital is left unchanged |
| `Text.ToLowerIdempotent` | app.py:8 | lowering an already lowered message changes nothing |
| `Text.ToLowerAppend` | app.py:8 | lowering a concatenation is the concatenation of the lowered parts |
| `Text.ContainsCorrect` | app.py:15-24 | the left-to-right scan `Contains(s, k)` is true exactly when `k` occurs as a contiguous slice of `s` (the `in` test of each branch), including the empty keyword |
| `Text.SubstringEmbedded` | app.py:15-24 | a keyword with any text before and after it is still a substring |
| `Text.MissingCharNotSubstring` | app.py:15-24 | a text lacking one of a keyword's letters does not contain the keyword |
| `Webhook.KeywordTestsAreSubstring` | app.py:15-24 | each of the four keyword tests is true exactly when the keyword is a substring of the lowered message |
| `Webhook.GreetIff` | app.py:15-16 | the greeting is chosen if and only if `hola` occurs in the lowered body, whatever else the body contains |
| `Webhook.ScheduleHelpIff` | app.py:18-19 | the schedule-help reply is chosen if and only if `agendar` occurs and `hola` does not |
| `Webhook.ConfirmIff` | app.py:21-22 | the confirmation reply is chosen if and only if `confirmar` occurs and neither `hola` nor `agendar` does |
| `Webhook.CancelIff` | app.py:24-25 | the cancellation reply is chosen if and only if `cancelar` occurs and none of `hola`, `agendar`, `confirmar` does |
| `Webhook.UnknownIff` | app.py:27-28 | the options fallback is chosen if and only if none of the four keywords occurs |
| `Webhook.ClassifyIsFirstMatch` | app.py:8-28 | for every body and intent, the rule list read first-match-wins (or `Unknown` when no rule matches) selects that intent exactly when `Classify` returns it |
| `Webhook.ClassifyCaseInsensitive` | app.py:8 | a body and its lower-cased form get the same intent |
| `Webhook.KeywordAnywhereSelects` | app.py:8-25 | any casing of a rule's keyword, anywhere in the body, selects that rule when no earlier rule's keyword occurs |
| `Webhook.GreetAnywhere` | app.py:8-16 | any casing of `hola`, anywhere in the body, gives the greeting |
| `Webhook.ReplyInjective` | app.py:15-28 | different intents get different reply texts |
| `Webhook.ExactlyOneReply` | app.py:13-30 | the reply sent for a body equals the reply text of an intent exactly when that intent is the body's classification |
| `MessageExamples.CommandSelects` | app.py:8-25 | a keyword in any casing, followed by lower-case text, selects that keyword's rule when, for each earlier keyword, some letter of it is absent from the lowered keyword plus the text |
| `MessageExamples.EmbeddedAndShadowed` | app.py:15-16 | "Holanda" is greeted; "Hola, quiero cancelar mi cita" is greeted, not cancelled |
| `MessageExamples.AdvertisedScheduleCommand` | app.py:18-19 | "AGENDAR cita", as the options text writes it, gets the schedule-help reply |
| `MessageExamples.AdvertisedConfirmCommand` | app.py:21-22 | "CONFIRMAR cita" gets the confirmation reply |
| `MessageExamples.AdvertisedCancelCommand` | app.py:24-25 | "CANCELAR cita" gets the cancellation reply |
| `MessageExamples.UsageExampleRepeatsHelp` | app.py:18-19 | the usage example "AGENDAR 25 enero 3pm" gets the schedule-help reply again |

## Left out

- HTTP plumbing is not modelled: the Flask routes, reading `Body` and `From` from `request.form` (app.py:8-9), and the `/` status route (app.py:32-34). A request missing either field fails before any reply is built; the model starts from a `Body` string that is present.
- The sender's number `From` (app.py:9) is read and logged but never affects the reply, so it is not a parameter.
- The Twilio `MessagingResponse` envelope and its XML serialisation (app.py:13, 30) are not modelled. The model gives the one reply text put into it.
- Logging with `print` and the `app.run` start-up (app.py:11, 36-38) are I/O and are not modelled.
- `Text.ToLower`: Python's `str.lower()` follows Unicode case mapping; the model lowers only `A`-`Z`. This does not change which reply is chosen (argued here, not proved): the keywords are ASCII, ASCII characters lower-case the same way in both, and the only non-ASCII characters Python lowers into ASCII are U+212A (to `k`, which no keyword contains) and U+0130 (to `i` followed by U+0307, while the one `i` of a keyword, in `confirmar`, is followed by `r`). The lowered text's length can differ from Python's for U+0130.
- `Text.Contains`: this is a specification of the `in` operator on strings, not of CPython's search algorithm.
- The reply texts are modelled verbatim. Each is written as its emoji prefix joined to the rest of the text; the string is the same.
