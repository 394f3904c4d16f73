# duck-ai: text helpers and conversation model, in Dafny

This project models the parts of the `duckai` package that have behaviour
of their own: the helpers in `src/duckai/utils.py` that clean prompt text,
trim replies and classify one line of a server-sent event stream, and the
`Message` and `Conversation` data classes in `src/duckai/models.py`.

- `whitespace.dfy` (module `Whitespace`): one whitespace predicate, the set
  of characters Python's `str.isspace` accepts (the same set `\s` matches in
  a `str` pattern and `str.strip()` removes), and the two string operations
  the helpers are built from: `re.sub(r"\s+", " ", s)` (`CollapseWhitespace`)
  and `s.strip()` (`Strip`). `Words` and `JoinWords` are reference
  definitions of `s.split()` and `" ".join(ws)`.
- `utils.dfy` (module `Utils`): `clean_text`, `format_response` and
  `parse_sse_line`. JSON decoding is a parameter `parse: string ->
  Option<Json>` that stands for `json.loads`, with `None` where it raises
  `JSONDecodeError`; the model assumes it raises no other exception (see
  "Left out") and assumes nothing else about it.
- `models.dfy` (module `Models`): `Message` and `Conversation` as classes,
  because `__post_init__` writes the `timestamp` field and `add_message`
  appends to the `messages` list in place. `to_dict` and `to_api_format`
  are functions that read the objects. The clock is a parameter `now`.
- `json.dfy` (module `JsonValue`) is the JSON value type; `wrappers.dfy`
  (module `Wrappers`) is `Option`.

`parse_sse_line` tests the line as given, without trimming it, and returns
the whole decoded event (`ParseSseLineLeadingWhitespace` states the
untrimmed behaviour).

## Model

| member | source | states |
|---|---|---|
| Whitespace.CollapseWhitespace | src/duckai/utils.py:11 | the result has no whitespace but single spaces and no two whitespace characters in a row; it is empty exactly when the input is; it starts (ends) with whitespace exactly when the input does |
| Whitespace.CollapseKeepsWords | src/duckai/utils.py:11 | the collapse has exactly the words of the input (`split()` of both agree): every whitespace run becomes one space in its place, so no words are joined or split |
| Whitespace.CollapseKeepsNonWhitespace | src/duckai/utils.py:11 | collapsing whitespace runs keeps every other character, in order |
| Whitespace.CollapseOfSingleSpaced | src/duckai/utils.py:11 | text whose only whitespace is lone spaces is left unchanged |
| Whitespace.Strip | src/duckai/utils.py:12 | the result is the input with whitespace cut from its two ends and nothing else changed, and has no whitespace at either end |
| Whitespace.StripUnique | src/duckai/utils.py:12 | every such cut that leaves no whitespace at either end equals `strip()`'s result |
| Whitespace.StripIdempotent | src/duckai/utils.py:35 | stripping twice gives the same as stripping once |
| Whitespace.StripKeepsNonWhitespace | src/duckai/utils.py:12 | stripping removes only whitespace |
| Whitespace.StripKeepsSingleSpaced | src/duckai/utils.py:11-12 | stripping single-spaced text keeps it single-spaced |
| Utils.CleanText | src/duckai/utils.py:8-12 | the result has no whitespace at either end, no whitespace but single spaces, never two in a row, and the same non-whitespace characters in the same order as the input |
| Utils.CleanTextIsJoinOfWords | src/duckai/utils.py:8-12 | `clean_text(s)` equals `" ".join(s.split())` for every input |
| Utils.CleanTextStep | src/duckai/utils.py:11-12 | cleaning gives the first word, then one space and the cleaned remainder unless that is empty |
| Utils.CleanTextOfBlank | src/duckai/utils.py:11-12 | text made only of whitespace cleans to the empty string |
| Utils.CleanTextOfClean | src/duckai/utils.py:11-12 | text already single-spaced with no edge whitespace is returned unchanged |
| Utils.CleanTextIdempotent | src/duckai/utils.py:11-12 | cleaning twice gives the same as cleaning once |
| Utils.FormatResponse | src/duckai/utils.py:32-35 | the reply with whitespace cut from both ends, nothing changed in between, and none left at either end |
| Utils.FormatResponseIsTheTrimming | src/duckai/utils.py:35 | any cut of edge whitespace that leaves none at either end is exactly what `format_response` returns |
| Utils.FormatResponseIdempotent | src/duckai/utils.py:35 | formatting twice gives the same as formatting once |
| Utils.ParseSseLine | src/duckai/utils.py:15-29 | a line without the exact prefix `data: ` gives `None`; the payload `[DONE]` gives `None`; any other payload gives exactly the parser's answer for `line[6:]`, `None` when parsing fails |
| Utils.ParseSseLineOfDataLine | src/duckai/utils.py:21-28 | `data: ` followed by a payload hands that payload, and only it, to the parser unless it is `[DONE]` |
| Utils.ParseSseLineSomeIff | src/duckai/utils.py:21-29 | a line yields an event exactly when it has the prefix, its payload is not `[DONE]` and the payload parses to that event |
| Utils.ParseSseLineRoundTrip | src/duckai/utils.py:21-26 | an event written as `data: <json>` is read back unchanged when the parser inverts the writer and rejects `[DONE]` |
| Utils.ParseSseLineLeadingWhitespace | src/duckai/utils.py:21-29 | a line starting with whitespace gives `None`: the line is not trimmed |
| Utils.ParseSseLineNoSpace | src/duckai/utils.py:21-29 | `data:` not followed by a space gives `None` |
| Utils.ParseSseLineCaseSensitive | src/duckai/utils.py:21-29 | a line starting with an upper-case `D` (as in `Data: `) gives `None` |
| Models.ApiMessageOf | src/duckai/models.py:23 | the dictionary has exactly the keys `role` and `content`, mapped to the given values |
| Models.Message.constructor | src/duckai/models.py:8-19 | role, content and model are stored as given; a supplied timestamp is kept, a missing one becomes the clock value, so the timestamp is never `None` afterwards |
| Models.Message.ToDict | src/duckai/models.py:21-23 | the message's role and content only, under keys `role` and `content`; timestamp and model are dropped |
| Models.ApiFormat | src/duckai/models.py:43 | one dictionary per message, same length, element `i` is `messages[i].to_dict()` |
| Models.Conversation.constructor | src/duckai/models.py:26-33 | id, messages, model and creation time are stored as given |
| Models.Conversation.ToApiFormat | src/duckai/models.py:41-43 | same length as `messages`; element `i` is `messages[i].to_dict()`, so order is kept |
| Models.Conversation.AddMessage | src/duckai/models.py:35-39 | a new message with the given role and content, stamped with the clock and with no model, is appended after the unchanged earlier messages and returned; id, model and creation time are untouched; the API form grows by exactly `{role, content}` at the end |

## Left out

- `src/duckai/client.py` is not part of this model: `_get_vqd`, `chat` and `stream_chat` only raise `NotImplementedError`, and `_get_headers` and `get_available_models` return constants.
- `print_stream_chunk` (src/duckai/utils.py:38-40) only writes to the console.
- `cli/main.py` is not part of this model: argument parsing and an input/print loop.
- `test_duckduckgo.py` is not part of this model: a live-network script that calls methods the client does not have.
- `setup.py` and `src/duckai/__init__.py`: packaging metadata and re-exports.
- `json.loads` internals: decoding is the parameter `parse`, so no property of JSON syntax is modelled.
- Utils.ParseSseLine: assumes `json.loads` fails only with `JSONDecodeError`; the other exceptions it can raise (a `RecursionError` on a deeply nested payload, a `ValueError` on an over-long integer literal) propagate out of `parse_sse_line` in Python, but `parse` cannot express them, so the model always returns a value.
- Utils.ParseSseLine: in Python a payload of `null` decodes to `None` and is indistinguishable from an ignored line; the model returns `Some(Null)` there, keeping the two apart.
- `datetime.now()`: the clock is the parameter `now`; `datetime` values are integers.
- Models.Message.constructor: the role is not checked to be `"user"` or `"assistant"`, as in the source.
- Models.Conversation.constructor: Python stores the caller's list object itself, so later appends are visible through the caller's reference; the model copies the sequence, so that aliasing is not captured.
- Python strings may hold lone surrogate code points; Dafny's `char` cannot, so those strings are outside the model.
