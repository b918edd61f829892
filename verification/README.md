# Session store of the LAN chat relay

The relay keeps two pieces of process-wide, in-memory state: `HISTORY`, the
append-only list of chat records (text messages and file announcements), and
`FILES`, the registry from a generated file id to the uploaded name, bytes and
content type. Four handlers touch them: the upload endpoint validates the
multipart request, stores the file and broadcasts a file announcement; the
download endpoint looks a file id up and returns the stored bytes or a 404; the
Socket.IO `connect` handler sends the whole history to the new peer; and the
`send_message` handler appends a text record and broadcasts it.

`app.dfy` (module `App`) models this as one class, `Session`, with fields
`history: seq<Record>` and `files: map<string, FileEntry>`, plus a ghost field
`broadcasts` holding, in order, every payload handed to the `new_message`
broadcast. Each handler is a method. `Record` is a two-case datatype (`Text`,
`File`); responses and events are datatypes too.

The object invariant `Session.Valid()` (built on `Consistent`) says that:

- record ids are unique;
- no file is announced twice;
- the registry holds exactly the announced file ids;
- each announcement carries its entry's name and byte count;
- the broadcast stream equals the history.

Modelling choices:

- **Generated ids.** `uuid.uuid4()` becomes caller-supplied `fileId` and `msgId`
  parameters. The methods require them to be fresh: the file id not a key of
  `files`, the record id not used in `history`. `app.py` assumes uuid
  uniqueness and never checks it, so this is an assumption of the model.
- **Broadcasts.** They are recorded only as the payload given to the emit.
- **The `send_message` payload.** It is a `map<string, string>`. A payload
  without a `content` key raises `KeyError` in `app.py` before anything is
  appended, so the model returns `None` and changes nothing.
- **The `if file:` test in `upload_file` (app.py:85).** It always holds once the
  empty filename has been rejected, because an uploaded file object is truthy
  exactly when its filename is non-empty. So the model has no branch for it.
- **The upload size ceiling.** `MAX_CONTENT_LENGTH` (app.py:13) caps the request
  size; `upload_file` itself never checks a size. Flask rejects an over-size
  request with 413 when `upload_file` first reads `request.files` (app.py:79),
  before any state change. The model does not include that rejection:
  `UploadFile` accepts data of any length.

## Model

| member | source | states |
|---|---|---|
| `App.Validate` | app.py:79-83 | the upload is accepted exactly when a `file` part is present and its filename is non-empty; otherwise status 400 with "No file part" exactly when the part is missing and "No selected file" exactly when the name is empty |
| `App.Session.constructor` | app.py:21-22 | the session starts with empty history, empty registry and nothing broadcast, and satisfies the invariant |
| `App.Session.UploadFile` | app.py:77-106 | a rejected upload returns the 400 response and leaves history, files and broadcasts unchanged; an accepted one adds exactly one entry under the new file id holding the uploaded name, bytes and content type, appends and broadcasts exactly one file record (same file id, filename, size = byte count) and returns that file id; previously stored entries are unchanged; history only grows at the end; the invariant is kept |
| `App.Session.DownloadFile` | app.py:108-119 | a known id yields an attachment with the stored bytes, mime type and name as download name; an unknown id yields 404 "File not found or expired"; it changes no state |
| `App.Session.HandleConnect` | app.py:121-124 | the new peer receives `load_history` with exactly the current history, in insertion order; no state changes |
| `App.Session.HandleMessage` | app.py:126-134 | with a `content` key, exactly one text record with that content, unvalidated, is appended and that same record is broadcast; without one, nothing changes; files are never touched; the invariant is kept |
| `App.UploadKeepsConsistent` | app.py:86-103 | storing under a fresh file id and appending the matching file record with a fresh record id keeps ids unique, registry keys equal to the announced ids and every announcement matching its entry |
| `App.MessageKeepsConsistent` | app.py:128-133 | appending a text record with a fresh id keeps the stores consistent |
| `App.EachRecordOnce` | app.py:96-103 | in a history with unique ids every record occurs exactly once |
| `App.JoinerSeesEachRecordOnce` | app.py:121-134 | a peer that joined when the history was a prefix of the current broadcast stream receives, across `load_history` and the later `new_message` events, the whole stream with each record exactly once and none in both |
| `App.UploadThenDownload` | app.py:86-118 | downloading the id an accepted upload returned yields the uploaded bytes, content type and filename |
| `App.PhotoScenario` | app.py:77-119 | uploading a 1024-byte `photo.png` of type `image/png` returns its file id, appends and broadcasts one file announcement of size 1024, and downloading that id returns 1024 bytes with that name and type |
| `App.JoinThenPublish` | app.py:96-134 | a peer that connects receives `load_history` with the history at that moment; the later `new_message` payloads are exactly the upload's file record (if it was accepted) followed by the message's text record (if it had a `content` key); together they are the whole broadcast stream, each record exactly once and none in both |
| `App.DownloadAnnounced` | app.py:89-118 | for a file record anywhere in the history, downloading its file id yields an attachment with the announced filename as download name and exactly the announced size in bytes |
| `App.ChatScenario` | app.py:121-134 | a peer joining an empty session receives an empty history; "hi" is broadcast as a text record; a peer joining afterwards receives a history holding it once |

## Left out

- `get_local_ip` (app.py:24-34): opens a UDP socket, which is network I/O.
- `generate_qr` (app.py:49-63): QR rendering, PNG and base64 encoding in foreign libraries.
- The `index` route (app.py:67-75): page templating and request host lookup.
- Cloud/local switching (`IS_CLOUD`, `SERVER_URL`, app.py:39-47) and startup (app.py:136-138): process configuration.
- `api/index.py`: it only re-exports the application object and sets a debug flag.
- Socket.IO delivery to peers, connection tracking and concurrency: the model is sequential and records only what is broadcast. Concurrent handlers are not modelled, so neither are their interleavings.
- Flask's 413 rejection of requests over `MAX_CONTENT_LENGTH` (app.py:13): raised inside the framework when `upload_file` first reads `request.files` (app.py:79), before any state change; the model has no request-size input.
- `send_file` streaming and attachment headers (app.py:114-119): only the returned (bytes, mime type, download name) triple is modelled.
- The randomness of uuid4: ids are caller-supplied and required fresh.
- App.Session.HandleMessage: a `content` value of a JSON type other than string is not modelled; the payload is a map from strings to strings.
- App.Session.UploadFile: a part sent without a content type, which gives no mime type, is not modelled; the content type is always a string.
