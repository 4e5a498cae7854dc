# 1on1 coaching backend: session registry and string helpers

This project models the deterministic part of the backend of a one-on-one
meeting coach (`backend/main.py`). Audio from a browser microphone or from a
meeting bot is transcribed, and the transcript lines are kept per session in
memory. Recent lines are rendered into a conversation log for an LLM prompt.

- `Sessions` (`sessions.dfy`) models `ConnectionManager` as a class. It has
  two map fields: `activeConnections` maps a session id to its websockets,
  and `transcripts` maps it to its `{speaker, text}` lines. The websocket
  type is a type parameter, and only its equality is used, as with Python's
  `in` and `list.remove`. `Connect`, `Disconnect` and `AddTranscript` state
  each new map in terms of the old ones. They keep the invariant `Valid()`:
  every active session has at least one connection and a transcript list.
  `GetRecentContext` is Python's slice `[-limit:]`, written out for every
  integer limit.
- `Endpoints` (`endpoints.dfy`) has the bearer-token stripping done by every
  authenticated endpoint, the http→ws rewrite of the public URL, and the
  output URL handed to the meeting bot.
- `Conversation` (`conversation.dfy`) renders the log as one
  `Speaker <n>: <text>` line per entry, joined by newlines. It also has a
  parser, and a proof that the parser reads the log back into its entries.
- `Text` (`text.dfy`) holds Python's `str.replace`, `sep.join` and
  `str.split` for the separators used here. `Decimal` (`decimal.dfy`) holds
  `str(int)`. `Wrappers` (`wrappers.dfy`) holds `Option`.

Nothing here performs I/O. Websocket `accept`, `send_json`, the speech-to-text
stream, the LLM, the database and the HTTP client are outside the model.

## Model

| member | source | states |
|---|---|---|
| `Sessions.ConnectionManager.constructor` | backend/main.py:42-44 | Both dictionaries start empty, so the registry invariant holds. |
| `Sessions.ConnectionManager.Connect` | backend/main.py:46-51 | For a session not active yet, the socket becomes its only connection and its transcript is reset to empty, dropping any stored lines. For an active session, the socket is appended and transcripts are untouched. No other session changes, and the invariant is kept. |
| `Sessions.ConnectionManager.Disconnect` | backend/main.py:54-63 | An inactive session changes nothing. Otherwise the first occurrence of the socket (if any) is removed. If no connection remains, the session leaves both dictionaries. If some remain, the transcripts are untouched. Other sessions are unchanged and the invariant is kept. |
| `Sessions.ConnectionManager.AddTranscript` | backend/main.py:74-77 | Exactly one `{speaker, text}` entry is appended to the end of the session's transcript, which is created if missing. Connections and other sessions are unchanged. |
| `Sessions.ConnectionManager.GetRecentContext` | backend/main.py:79-80 | An unknown session gives `[]`. A positive limit gives the last `min(limit, len)` lines in their original order. A zero limit gives every line, and a negative one drops the first `-limit` lines (Python slicing). State is not changed. |
| `Sessions.RemoveFirst` | backend/main.py:56-57 | `list.remove`: an absent element leaves the list as it is. A present one makes it one shorter and takes out exactly one copy of the element (multiset difference). |
| `Sessions.RemoveFirstAt` | backend/main.py:57 | The copy removed is the first one: everything before it and after it is kept, in order. |
| `Endpoints.RequestToken` | backend/main.py:200-203 | A missing or empty `Authorization` header is refused. Otherwise the token is the header with every `"Bearer "` removed, and it is never longer than the header. |
| `Endpoints.RequestTokenBearer` | backend/main.py:200-203 | The guard passes on exactly `t` for the header `"Bearer " + t`, where `t` holds no further `"Bearer "`. |
| `Endpoints.StripBearerPrefixed` | backend/main.py:203 | For a header `"Bearer " + t`, where `t` holds no further `"Bearer "`, the token is exactly `t`. |
| `Endpoints.StripBearerIdentity` | backend/main.py:225 | The header is passed on unchanged if and only if `"Bearer "` does not occur in it. |
| `Endpoints.StripBearerLength` | backend/main.py:245 | Every occurrence of `"Bearer "` is removed: the token is 7 characters shorter per occurrence found by the left-to-right scan. |
| `Endpoints.WebSocketBaseHttps` | backend/main.py:354 | `https://<rest>` becomes `wss://<rest>` when the rest holds no scheme. |
| `Endpoints.WebSocketBaseHttp` | backend/main.py:354 | `http://<rest>` becomes `ws://<rest>` when the rest holds no scheme. |
| `Endpoints.WebSocketBaseUnchanged` | backend/main.py:354 | A URL in which neither `https://` nor `http://` occurs is kept as it is. |
| `Endpoints.BotOutputUrlHttps` | backend/main.py:354-357 | For `https://<host>` the bot URL is `wss://<host>/ws/meeting-baas/<session>?db_session_id=<db session>`. |
| `Endpoints.BotOutputUrlHttp` | backend/main.py:354-357 | For `http://<host>` the bot URL is `ws://<host>/ws/meeting-baas/<session>?db_session_id=<db session>`. |
| `Conversation.ConversationPrompt` | backend/main.py:88-91 | No log is built exactly when the context is empty, which is the early return. Otherwise the log is the newline join of the rendered lines, and it starts with `Speaker `. When no text contains a newline, parsing the log gives back the context. |
| `Conversation.AdviceLog` | backend/main.py:86-91 | `generate_advice` takes the last 20 lines of the session (all of them if there are fewer) and renders them. It builds nothing exactly when the session has no lines. The registry is not changed. |
| `Conversation.ConversationTextLines` | backend/main.py:91 | When no text contains a newline, the log splits into exactly one rendered `Speaker <n>: <text>` line per entry, in input order. |
| `Conversation.ParseRenderLine` | backend/main.py:91 | A rendered line can be read back: its speaker number and text give the original entry. |
| `Conversation.ConversationRoundTrip` | backend/main.py:285 | Parsing the log of a non-empty context whose texts are single lines gives back every entry, in order. The summary endpoint renders its rows the same way. |
| `Decimal.IntToDecimalRoundTrip` | backend/main.py:91 | `str(speaker)` is an optional minus sign followed by digits, and reading it back gives the integer. |
| `Decimal.IntToDecimalInjective` | backend/main.py:285 | Distinct speaker numbers render as distinct strings. |
| `Decimal.NatToDecimalRoundTrip` | backend/main.py:91 | The digits of a natural number are decimal digits with no leading zero, and their value is the number. |
| `Text.ReplaceAllLength` | backend/main.py:203 | `str.replace` changes the length by `len(new) - len(old)` per replacement. |
| `Text.CountPositiveIffContains` | backend/main.py:203 | At least one replacement happens if and only if the pattern occurs somewhere. |
| `Text.ReplaceAllAbsent` | backend/main.py:354 | A string without the pattern is left unchanged. |
| `Text.ReplaceAllIdentityIff` | backend/main.py:274 | When the replacement has a different length, the result equals the input if and only if the pattern does not occur. |
| `Text.ReplaceAllSkipsPrefix` | backend/main.py:354 | A prefix in which no character can start the pattern passes through untouched. |
| `Text.SplitJoin` | backend/main.py:91 | Splitting a `"\n".join` on newlines gives back the parts, provided no part contains a newline. |

## Left out

- `ConnectionManager.broadcast` (backend/main.py:66-72) and the `await websocket.accept()` in `connect`: network I/O whose exceptions are swallowed.
- The log lines printed by `connect` and `disconnect`.
- `process_audio` and its `on_message` callback (backend/main.py:121-189): a speech-to-text streaming client with an async receive loop and spawned tasks. What the callback does to the registry is `AddTranscript`.
- The LLM calls in `generate_advice` and `summarize_session`, and the prompt wording around the conversation log. Only the log itself is modelled.
- The fixed "no conversation data" reply of `summarize_session` (backend/main.py:281-282). It is the same empty-context test that `ConversationPrompt` states. The summary rows carry their text under `content`, and the model holds it in `Entry.text`.
- All FastAPI routing, `HTTPException` and `Query` plumbing, CORS, environment variables, `join_meeting`'s HTTP POST to the bot service, its "Config missing" reply, and the uvicorn entry point.
- `backend/db.py`: every function is a thin wrapper over the hosted database client, whose behaviour is not visible.
- The mind-map editor of the frontend (graph model, layout, subtree deletion, debounced saving) is not part of this model: its TypeScript source is not among the files modelled.
- Concurrency: the registry runs on one asyncio event loop. Interleavings between an awaited `accept` and the dictionary updates are not modelled.
- `Text.ReplaceAll`: only non-empty patterns are modelled, because every call site replaces a fixed non-empty literal. Python also defines `replace` with an empty pattern.
- `Text.Split`: only single-character separators are modelled, because the log is joined with `"\n"`.
- `Sessions.ConnectionManager.GetRecentContext`: Python's default argument is not modelled. The default of 20 is the constant `DefaultContextLimit`, which `Conversation.AdviceLog` passes, as `generate_advice` does by omitting the limit.
