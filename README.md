# yt-dlp-api: a verified model of the download service's core

The service wraps an extraction engine (yt-dlp) behind a small HTTP and
websocket API. This project models the logic that is left once the web
framework, the engine and the transport are removed:

- **`SizeFormat`** (`size_format.dfy`): the byte-count formatter
  `YouTubeDownloader.format_size`. A falsy size (absent or zero) gives
  `"N/A"`. Any other size is divided by 1024 through B, KB, MB and GB until
  it drops below 1024, and falls through to TB. The division is exact, so it
  is modelled on `real`; the `:.2f` rendering is a function parameter.
- **`VideoInfo`** (`video_info.dfy`): the description built by
  `get_video_info`. The format records whose `ext` is truthy are kept and
  mapped to descriptors. These have `'N/A'` defaults and a formatted size.
  The loop is an imperative method, proved equal to a filter-map function.
- **`Download`** (`download.dfy`): the response framing of `download_video`.
  It covers the requested format, the file name, the media type and the two
  headers, plus the error raised when the engine fails or the title or
  extension is missing.
- **`Registry`** (`registry.dfy`): `ConnectionManager`, a class whose
  `active` field maps client ids to sockets. Each socket is a class whose
  `outbox` records everything sent on it. `connect`, `disconnect` and
  `send_progress` are methods that change the registry or the outboxes.
- **`ProgressSession`** (`progress.dfy`): the websocket endpoint. For each
  received message of type `"download"` it sends:
  - a progress event at 0;
  - ten ticks at 10, 20, ..., 100;
  - after describing the video, one `"complete"` event carrying the title,
    the duration string and the number of format descriptors.

  This is modelled as methods that send into the registry, proved against
  functions that give the expected messages of one message and of a whole
  session.
- **`Common`** (`common.dfy`): `Option`, `Result`, and `Field`, which
  models how a dictionary key looks to `dict.get`: absent, null, or a value.

The engine's answers (`extract_info`) are inputs to the model: a
`Result<RawInfo>` for a description and a `Result<DownloadInfo>` for a
download. In a session, each received message is paired with the engine's
answer for it.

Points of the code's behaviour worth knowing:

- `connect` stores the socket by plain dictionary assignment
  (main.py:117), so a second connect under an id already registered
  replaces the earlier socket. `ReconnectTakesOver` shows the effect.
- Every event before the summary has type `"progress"`, including the
  first one at 0% (main.py:160-164). No event reports a failure.
- If describing the video fails inside the websocket handler
  (main.py:175), the HTTP error raised there is not a `WebSocketDisconnect`,
  so it escapes the `except` at main.py:186. The client then gets eleven
  progress events and no terminal event. The disconnect never runs, so the
  client id stays registered. This is the `Aborted` outcome of `RunSession`.
- `X-Video-Title` falls back to `"video"` only when the title is absent
  (main.py:102). An absent title has already raised a KeyError at
  main.py:90, so the fallback is never used (`FramingContents`).

## Model

| member | source | states |
|---|---|---|
| SizeFormat.FormatSize | main.py:67-75 | the loop over B, KB, MB, GB with repeated division by 1024 returns exactly the unit band and scaled value of `SizeTextOf` |
| SizeFormat.NotAvailableExactly | main.py:69-70 | the result is "N/A" if and only if the size is absent or zero; a non-zero size never renders as the placeholder |
| SizeFormat.BandCharacterised | main.py:71-75 | the unit index is k exactly when the size reaches 1024^k (k > 0) and, unless k is the TB fall-through, stays below 1024^(k+1) |
| SizeFormat.FirstFittingUnit | main.py:71-74 | the chosen unit is the first at which the divided size is below 1024; at every earlier unit it is at least 1024 |
| SizeFormat.BandMonotone | main.py:71-75 | a larger size never lands in a smaller unit |
| SizeFormat.ScaledValue | main.py:71-75 | a non-zero size is scaled by exactly 1024^k and keeps its sign; a negative size stays in B |
| SizeFormat.ScaledRange | main.py:71-75 | below 1024^4 the scaled value is below 1024, and it is at least 1 outside the B band, where it is the size itself |
| SizeFormat.OneMegabyte | main.py:71-75 | 1048576 bytes gives (1.0, MB), rendered "1.00 MB" |
| Common.NatToStringValue | main.py:171 | the decimal text of a tick's percentage spells that number, with no leading zero |
| Common.Get | main.py:43-46 | `d.get(k)` gives the value when present and non-null, and null otherwise |
| Common.GetOr | main.py:45-48 | `d.get(k, default)` gives the default only for an absent key; a present null stays null |
| VideoInfo.Describe | main.py:42-49 | a descriptor copies format id, ext and filesize, has `filesize_fmt` equal to the formatted filesize, and has "N/A" for an absent resolution or note, a present null as null and a present value unchanged |
| VideoInfo.GetVideoInfo | main.py:33-65 | the loop builds exactly the described kept records, and the error cases (engine failure, null formats) become the "Error getting video info" error |
| VideoInfo.DescriptorsLength | main.py:39-49 | the list has one entry per kept record, so it is never longer than the input, and as long exactly when every record is kept |
| VideoInfo.DescriptorsMembership | main.py:40-49 | a descriptor is in the list if and only if it describes some kept record |
| VideoInfo.DescriptorsOrder | main.py:40-49 | the kept record at index i is described at the position given by the number of kept records before it, so input order is kept |
| VideoInfo.DescriptorsAppend | main.py:40-49 | building descriptors distributes over concatenation of the records |
| VideoInfo.MissingVersusNullFormats | main.py:40 | an absent formats list gives an empty descriptor list; a null one gives the not-iterable error |
| Download.RequestedFormat | main.py:80 | the requested format is the format id when it is non-empty, and "best" otherwise |
| Download.MediaType | main.py:99 | the media type is video/mp4 if and only if ext is "mp4", and application/octet-stream otherwise |
| Download.Frame | main.py:87-106 | framing succeeds if and only if the engine succeeded and both title and ext are present; an engine error becomes "Download error: " plus its message |
| Download.FramingContents | main.py:90-102 | on success: file name "title.ext", the disposition header `attachment; filename="title.ext"` (which reads back as that name when neither part holds a '"'), the title header equal to the title, and the media type mp4 exactly for ext "mp4" |
| Download.FilenameSplits | main.py:90 | splitting the file name at its last '.' gives back the title and the extension when the extension has no '.' |
| Download.DispositionRoundTrip | main.py:101 | a reader that takes the quoted name of the Content-Disposition header up to its first '"' gets back a file name without '"' unchanged |
| Download.QuoteTruncatesFilename | main.py:101 | the header escapes nothing, so a '"' in the file name ends the quoted name early and the client reads only the part before it |
| Download.FirstQuote | main.py:101 | reader for the round trip of the header built at main.py:101: the index found is the first '"' of the string, and none is found exactly when it has no '"' |
| Download.Mp4Download | main.py:80-102 | an mp4 variant requested as "best" is served as video/mp4 with `attachment; filename="title.mp4"` |
| Download.LastDot | main.py:90 | reader for the round trip of the name built at main.py:90: the index found is the last '.' of the name, and none is found only when the name has no '.' |
| Registry.ConnectionManager.constructor | main.py:112-113 | a new registry has no connections |
| Registry.Step | main.py:115-121 | connect binds the id to the new socket, replacing any earlier one; disconnect unbinds it; every other id keeps its binding |
| Registry.RegisteredIffLastConnect | main.py:115-125 | after any run of connects and disconnects, an id is registered exactly when the last operation on it was a connect, and to that connect's socket |
| Registry.DisconnectIdempotent | main.py:119-121 | a second disconnect of the same id changes nothing, and disconnecting an absent id is a no-op |
| Registry.ConnectionManager.Connect | main.py:115-117 | the table after connect is the old one with the id bound to the new socket |
| Registry.ConnectionManager.Disconnect | main.py:119-121 | the table after disconnect is the old one without the id |
| Registry.ConnectionManager.SendProgress | main.py:123-125 | the message is appended to the outbox of the id's socket when the id is registered; no other socket changes, and an unknown id is silently ignored |
| Registry.SendAfterDisconnect | main.py:119-125 | a message sent while connected arrives; one sent after the disconnect is dropped, and the id is no longer registered |
| Registry.ReconnectTakesOver | main.py:115-117 | a second connect under the same id takes it over: later messages reach only the new socket |
| ProgressSession.ProgressRunShape | main.py:160-173 | the progress part is eleven progress events at 0, 10, ..., 100 |
| ProgressSession.DownloadEvents | main.py:154-184 | a "download" message sends a valid run: progress 0, 10, ..., 100, then exactly one summary whose format count is the descriptor count; a failed description sends no terminal event |
| ProgressSession.SummaryCountsKeptFormats | main.py:175-184 | the summary's format count is the number of format records with a truthy ext, at most the number of records |
| ProgressSession.OtherMessagesSilent | main.py:154 | a message whose type is not "download" sends nothing |
| ProgressSession.SendProgressRun | main.py:160-173 | the start event and the ten ticks are appended, in order, to the client's outbox only |
| ProgressSession.HandleMessage | main.py:154-184 | one pass of the loop appends exactly the expected messages to the client's outbox, touches no other socket, and crashes exactly when the description fails |
| ProgressSession.ServeOne | main.py:153-184 | handling the i-th received message sends exactly that message's reply to the client's socket |
| ProgressSession.TranscriptAppend | main.py:152-184 | after a prefix of messages handled without an error, the rest of the session goes on as if it started there |
| ProgressSession.TranscriptStopsAt | main.py:152-186 | at the first message whose handling crashes, the session stops with that message's events and the crash as its end |
| ProgressSession.RepliesAt | main.py:152-153 | the i-th reply of a session is the reply to its i-th received message |
| ProgressSession.SessionStopsAtFirstCrash | main.py:152-186 | a crash at the i-th message ends the session there: the client has the earlier messages' events plus the crashing message's progress, and later messages are not handled |
| ProgressSession.SessionEventCount | main.py:152-184 | a session without errors sends twelve events per "download" message and nothing else |
| ProgressSession.ServeInbox | main.py:152-186 | the receive loop sends exactly the session's events to the client and no other socket, and ends as the session does |
| ProgressSession.RunSession | main.py:148-188 | connect, serve and, when the client goes away, disconnect; after a crash the client stays registered to its socket |

## Left out

- FastAPI setup, CORS, the plain routes, the health check and `uvicorn.run` (main.py:13-22, 129-146, 190-192): framework plumbing with no logic.
- The yt_dlp engine (`extract_info`, main.py:36-37 and 88-89): a foreign library. Its answer, or its failure message, is an input to the model.
- The chunk relay `generate` (main.py:92-95) and `StreamingResponse`: I/O. The relay goes through attributes of the engine instance (`ydl.YoutubeDL`, `stream`) that are outside the model.
- `websocket.accept`, `receive_json` and `send_json`: transport. A send is an append to the socket's outbox. A received message that is not a JSON object is not modelled.
- ProgressSession.ServeInbox: the client can leave only at the end of the inbox, while the endpoint waits in `receive_json`. A client that drops in the middle of a run is reported by the framework at the next `send_json`, and that case is not modelled.
- `asyncio.sleep` and the interleaving of concurrent clients: timing and concurrency. Each session is modelled as running alone against the registry.
- The `print` after a disconnect (main.py:188): console output only.
- SizeFormat.Render: Python's `:.2f` rounding is not interpreted. It is the parameter `fixed2`; only the "N/A" literal and the unit names are exact.
- SizeFormat.FormatSize: works on exact reals. Python floats lose precision for sizes above 2^53 bytes that a double cannot hold exactly; that rounding is not modelled.
- Download.DispositionFilename: the header reader stops at the first '"' and does not handle the quoted-pair escapes of a quoted string (section 3.2.6 of RFC 7230). main.py:101 escapes nothing, so a backslash in a title is misread by a client that follows that standard, just as a '"' is; `DispositionRoundTrip` does not cover that case.
- Download.Frame: a title or ext that is present with a JSON null value is not modelled (`DownloadInfo` holds plain strings). Header encoding failures inside the framework are also not modelled.
- ProgressSession.HandleMessage: the `format` field of the received message is read (main.py:157) but never used. The `url` field only goes to the engine (main.py:156, 175), and the engine's answer for the message is an input.
- Exception-to-HTTP-400 wrapping (main.py:64-65, 105-106) is modelled only as an `Err` carrying the detail text. The engine's own exception texts are inputs.
