# Lab-report tool of the hybrid symptom checker, in Dafny

The hybrid demo pairs a cloud chat agent with one local tool, `summarize_lab_report`.
The tool sends the user's raw lab text to a small model on a local OpenAI-compatible
server and parses the model's reply as JSON. This project models the deterministic
core of that tool:

- **Request** (`request.dfy`): the chat-completions request body. It holds the model
  identifier, exactly two messages (the system prompt, then the lab text verbatim),
  `max_tokens` 256 and temperature 0.2.
- **Reply** (`reply.dfy`): flattening the reply's `content`, which is either a string
  or a list of parts. Object parts contribute their `"text"` (or `""`). Non-object
  parts are skipped, and the texts are concatenated in order.
- **Fences** (`fences.dfy`): `_strip_code_fences`. It trims the reply. Only when the
  trimmed text opens with a Markdown fence, it drops that fence, an optional
  case-insensitive `json` tag and a closing fence, each with the whitespace next to it.
- **Text** (`text.dfy`): Python's `strip`/`lstrip`/`rstrip` without arguments, over
  the exact `str.isspace` character set, plus `startswith`, `endswith` and the
  case-insensitive `json` test.
- **LabTool** (`lab_tool.dfy`): the pipeline from request to the text handed to
  `json.loads`. The server is a parameter: a function from request to reply content.

Strings are sequences of Unicode scalar values. Python strings can also hold lone
surrogates; the model does not (see "Left out").

The main results:
- A trimmed fenced payload comes back exactly, whatever whitespace surrounds the
  pieces, when the fence carries a `json` tag or the payload does not itself begin
  with `json` (`FencedRoundTrip`).
- The bare-fence round trip holds exactly when the payload does not itself begin
  with `json` (`BareFenceRoundTripIff`).
- Everything removed from the reply is blanks plus at most one opening fence, one
  tag and one closing fence (`StripCodeFencesRemovesOnlyWrapper`).
- Flattening is compositional over part lists (`FlattenAppend`).
- The request carries the lab text verbatim and recoverably (`PayloadRecoversInputs`).

## Model

All source cells refer to `src/hybridAI_agent_with_tool.py`.

| member | source | states |
|---|---|---|
| Text.IsWhitespace | src/hybridAI_agent_with_tool.py:74 | the characters `strip()`, `lstrip()` and `rstrip()` remove, written as ranges, are exactly the 29 characters of Python's `str.isspace` table |
| Text.StartsWithMeansPrefix | src/hybridAI_agent_with_tool.py:75 | `startswith(prefix)` holds exactly when the text is `prefix` followed by something |
| Text.EndsWithMeansSuffix | src/hybridAI_agent_with_tool.py:82 | `endswith(suffix)` holds exactly when the text is something followed by `suffix` |
| Text.StartsWithIgnoringCase | src/hybridAI_agent_with_tool.py:79 | for a lower-case ASCII tag, the ASCII-folded prefix test holds exactly when each of the first characters is that letter of the tag or its capital; for a tag without `i` or `k`, such as the `json` of line 79, this is `lower().startswith(tag)` |
| Text.Strip | src/hybridAI_agent_with_tool.py:74 | `text.strip()` is no longer than `text` and neither starts nor ends with whitespace |
| Text.LStrip | src/hybridAI_agent_with_tool.py:77 | `lstrip()` returns a tail of its argument that does not start with whitespace (that the dropped part is whitespace is `Text.LStripDropsBlanks`) |
| Text.RStrip | src/hybridAI_agent_with_tool.py:83 | `rstrip()` returns a head of its argument that does not end with whitespace (that the dropped part is whitespace is `Text.RStripDropsBlanks`) |
| Text.LStripDropsBlanks | src/hybridAI_agent_with_tool.py:77 | every character `lstrip()` drops is whitespace |
| Text.RStripDropsBlanks | src/hybridAI_agent_with_tool.py:83 | every character `rstrip()` drops is whitespace |
| Text.LStripIsUnique | src/hybridAI_agent_with_tool.py:77 | for every split of `s` into all-whitespace then a non-whitespace start, `lstrip` returns exactly the second piece |
| Text.RStripIsUnique | src/hybridAI_agent_with_tool.py:83 | for every split of `s` into a non-whitespace end then all-whitespace, `rstrip` returns exactly the first piece |
| Text.StripIsUnique | src/hybridAI_agent_with_tool.py:74 | whitespace, a trimmed middle, whitespace: `strip` returns exactly that middle |
| Text.StripPadded | src/hybridAI_agent_with_tool.py:74 | `strip` of whitespace, a trimmed text and whitespace is that text |
| Text.StripOfTrimmed | src/hybridAI_agent_with_tool.py:74 | a trimmed text is its own `strip` |
| Fences.StripCodeFences | src/hybridAI_agent_with_tool.py:70-84 | the result is trimmed and no longer than the input; a reply that does not open with a fence after trimming is only trimmed |
| Fences.AfterOpening | src/hybridAI_agent_with_tool.py:76-80 | removing the opening fence and optional tag leaves a text at least three characters shorter that does not start with whitespace and ends where its input ends |
| Fences.LStripFrom | src/hybridAI_agent_with_tool.py:77-80 | `s[k:].lstrip()` is at most `|s| - k` long, does not start with whitespace and ends where `s` ends |
| Fences.DropClosingFence | src/hybridAI_agent_with_tool.py:81-83 | removing a closing fence leaves a head of the text; without a closing fence nothing changes; a trimmed text stays trimmed |
| Fences.FencedRoundTrip | src/hybridAI_agent_with_tool.py:70-84 | a trimmed payload in a fence, with a `json` tag in any case, or with no tag when the payload does not itself begin with `json` in any case, and any whitespace around each piece, is returned exactly |
| Fences.JsonFenceRoundTrip | src/hybridAI_agent_with_tool.py:72-84 | a ```` ```json ```` block around a trimmed payload yields the payload |
| Fences.BareFenceRoundTrip | src/hybridAI_agent_with_tool.py:72-84 | an untagged fence around a trimmed payload that does not begin with `json` yields the payload |
| Fences.BareFenceTakesLeadingJsonAsTag | src/hybridAI_agent_with_tool.py:79-80 | in an untagged fence, a payload beginning with `json` loses that word and the blanks after it, so the result is strictly shorter |
| Fences.BareFenceRoundTripIff | src/hybridAI_agent_with_tool.py:76-84 | the untagged-fence round trip holds if and only if the payload does not begin with `json` in any case |
| Fences.UnfencedRoundTrip | src/hybridAI_agent_with_tool.py:74-84 | a trimmed reply that does not open with a fence is returned unchanged |
| Fences.UnopenedClosingFenceKept | src/hybridAI_agent_with_tool.py:75-83 | a non-empty trimmed text that does not open with a fence keeps a closing fence placed after it on a line of its own |
| Fences.StripCodeFencesRemovesOnlyWrapper | src/hybridAI_agent_with_tool.py:74-84 | the result is a contiguous slice of the input; the non-blank text before it is nothing, a fence, or a fence and a `json` tag; the non-blank text after it is nothing, or one fence when an opening one was removed |
| Reply.DictTexts | src/hybridAI_agent_with_tool.py:136 | the generator yields at most one text per part; with only object parts it yields each part's `"text"` (or `""`) in order; with no object parts it yields nothing |
| Reply.Join | src/hybridAI_agent_with_tool.py:135 | `"".join` is empty exactly when every piece is, and a single piece joins to itself |
| Reply.JoinDictTexts | src/hybridAI_agent_with_tool.py:135-136 | the join of the generator equals the in-order concatenation of every part's contribution |
| Reply.FlattenContent | src/hybridAI_agent_with_tool.py:134-139 | string content is used as it is; list content becomes the in-order concatenation of every part's contribution |
| Reply.FlattenString | src/hybridAI_agent_with_tool.py:138-139 | string content is used as it is |
| Reply.FlattenNoDicts | src/hybridAI_agent_with_tool.py:134-137 | a list with no object parts flattens to the empty text |
| Reply.FlattenAppend | src/hybridAI_agent_with_tool.py:134-137 | the text of two concatenated part lists is the concatenation of their texts |
| Reply.FlattenSingle | src/hybridAI_agent_with_tool.py:136 | one part contributes its `"text"`, `""` for an object without one, and nothing for a non-object |
| Reply.FlattenAt | src/hybridAI_agent_with_tool.py:134-137 | each part's contribution sits between the text of the parts before it and the text of the parts after it |
| Reply.FlattenSkipsOther | src/hybridAI_agent_with_tool.py:136 | removing a non-object part leaves the text unchanged |
| Reply.FlattenSkipsMissingText | src/hybridAI_agent_with_tool.py:136 | removing an object part without `"text"` leaves the text unchanged |
| Reply.FlattenReassembles | src/hybridAI_agent_with_tool.py:134-137 | a string split over two object parts with a non-object between them is put back together |
| Request.BuildPayload | src/hybridAI_agent_with_tool.py:105-113 | the request names the configured model, `max_tokens` 256 and temperature 0.2, and has exactly two messages: the system prompt, then the lab text |
| Request.PayloadRecoversInputs | src/hybridAI_agent_with_tool.py:107-110 | looking up the first `user` message gives back the lab text, and the first `system` message gives back the system prompt |
| Request.SystemBeforeUser | src/hybridAI_agent_with_tool.py:107-110 | the system message is at position 0 and the user message at position 1 |
| Request.PayloadInjective | src/hybridAI_agent_with_tool.py:105-113 | for a fixed system prompt, two requests are equal if and only if their lab texts are |
| LabTool.CleanedReply | src/hybridAI_agent_with_tool.py:133-145 | the text handed to the JSON parser is trimmed and no longer than the flattened reply |
| LabTool.SummarizeLabReport | src/hybridAI_agent_with_tool.py:105-146 | the posted request is exactly the one built for the lab text, in which the lab text and the system prompt are found; the text parsed is the cleaned form of the server's answer to it, and is trimmed |
| LabTool.FencedStringReply | src/hybridAI_agent_with_tool.py:138-145 | a string reply holding a ```` ```json ```` block yields the block's body |
| LabTool.FencedPartsReply | src/hybridAI_agent_with_tool.py:133-145 | a fenced reply whose fence lines and body arrive as separate parts yields the body |
| LabTool.UnfencedPartsReply | src/hybridAI_agent_with_tool.py:133-145 | an unfenced list reply is only trimmed: the result is the trimmed concatenation of its parts' contributions |
| LabTool.SummarizeWithFencedServer | src/hybridAI_agent_with_tool.py:105-146 | when the server's answer to the tool's request reads as a fenced block around a trimmed `p` (a `json` tag in any case, or no tag when `p` does not begin with `json` in any case; any whitespace between the pieces; one string or many parts), the tool parses exactly `p` |
| LabTool.SummarizeWithUnfencedServer | src/hybridAI_agent_with_tool.py:105-146 | when the server's answer does not open with a fence once trimmed, the tool parses that answer only trimmed |

Python's `lower()` is modelled as ASCII lower-casing compared with the tag `json`.
This is exact for this tag, though not for every tag: U+212A lowers to `k`, so a tag
containing `k` or `i` would also match non-ASCII text. The only character whose `lower()` changes length
is U+0130, which lowers to `i` and a combining dot. No other character lowers to `j`,
`s`, `o` or `n`. So the lowered text starts with `json` exactly when its first four
characters fold to it, and line 80 then cuts four characters of the original text.

The code has no typed errors and no schema validation of the parsed summary. The
model follows the code: a malformed reply is whatever `json.loads` makes of it.

## Left out

- The HTTP exchange (lines 115-128): headers, the URL, the 120-second timeout and
  `raise_for_status`. They are I/O; the server's answer is a parameter of
  `LabTool.SummarizeLabReport`.
- `json.dumps` of the request and `resp.json()` / `json.loads` of the reply
  (lines 123, 128, 146). JSON encoding and parsing are outside the model; the model
  stops at the text handed to the parser.
- The `choices[0].message.content` lookup (line 131). A missing key or an empty list
  raises in Python; the model starts from the content value.
- Content that is neither a string nor a list, such as `null`. It passes line 139
  unchanged and then raises `AttributeError` at the `strip()` of line 74.
- Object parts whose `"text"` is not a string. They raise `TypeError` in the join of
  line 135. `Content` and `Part` admit only the well-typed shapes.
- Lone surrogates. Python's JSON decoder can put them in a string (from an escape
  such as `\ud800`). A Dafny `char` is a Unicode scalar value, so such replies and
  lab texts cannot be represented.
- The text of the two system prompts (lines 15-35, 47-67). The lab prompt is a
  parameter of `Request.BuildPayload`.
- The agent, its client, credentials and the interactive `main` (lines 87-93, 156-266).
  None of them feeds the modelled computation.
- The `print` calls (lines 119, 141-142, 147-148): logging only.
- The temperature: modelled as the exact decimal 0.2 that the request's JSON carries,
  not as a binary floating-point value.
