# camera-monitor worker, modelled in Dafny

camera-monitor is a desktop client. Its worker is written to register and log a user in against a camera server, open a WebSocket to that server after a login, and show the camera list and the live frames it receives. All of its logic is in the background worker, `src/worker.rs`. This project models that worker:

- **DeviceLabel** (`label.dfy`): the camera-list row codec. A device id (a byte vector) is shown as its Rust `Debug` text, `[1, 2, 3]`. When the user picks a row, that text is parsed back into bytes. The split, trim and `u8` parsing follow the Rust standard library functions the source calls. The central result is the round trip `ParseLabel(FormatLabel(id)) == Some(id)`, the empty id included. The module also shows which rows fail to parse: a number above 255, a non-numeric piece, and commas without the space `Debug` writes.
- **Ui** (`ui.dfy`): the window state the worker reads and writes: the server address, the screen, the single error-message slot, the camera rows and the current frame.
- **Stream** (`stream.dfy`): one streaming session (`camera_list_task`), made of four parts:
  - the change-camera callback, which queues the id parsed from the chosen row;
  - the outbound loop, which sends each queued id as a `select_device` packet;
  - the inbound handler, which writes a decoded frame, or replaces the camera list wholesale with a parsed device list;
  - the inbound loop over the incoming messages.
- **Worker** (`worker.dfy`): the command loop (`worker_task`). Each login or registration command, together with the network's answer, decides the error text, the screen, and whether a streaming session starts.

Every `unwrap` on a request, a token, a row, a parse or a decode is modelled as an explicit outcome, never as a precondition. The outcome is `None`, `ok == false`, or `running == false`, and the state is unchanged because the source panics before it writes anything.

A failed login writes the text `"Error when registering"`, the same text as a failed registration. That is what the source does (src/worker.rs:50 and :78), and the model keeps it.

A frame that fails to decode, or whose byte count is not width·height·3, panics the handler (src/worker.rs:129, 132). The model keeps this as `Stream.Panics`.

The JPEG decoder and the JSON parser are library code. They are function parameters (`decode`, `parse`), so the same payload always gives the same result. HTTP and WebSocket traffic is given as input: an `Exchange` for each command, and a sequence of `Message`s for each session.

## Model

| member | source | states |
|---|---|---|
| `DeviceLabel.DecimalString` | src/worker.rs:147 | The `Debug` text of a byte is one or more decimal digits, with no leading zero. |
| `DeviceLabel.DecimalRoundTrip` | src/worker.rs:100 | Reading the decimal text of `n` back as digits gives `n`. |
| `DeviceLabel.ParseU8` | src/worker.rs:100 | `parse::<u8>` succeeds only on text that ends in a digit. |
| `DeviceLabel.ParseU8Accepts` | src/worker.rs:100 | Any text `parse::<u8>` accepts is an optional `+`, a run of zeros, and the decimal text of the byte it yields. |
| `DeviceLabel.ParseU8Canonical` | src/worker.rs:100 | Conversely, an optional `+`, any run of zeros and a byte's decimal text parse to that byte. |
| `DeviceLabel.ParseU8Decimal` | src/worker.rs:100 | `parse::<u8>` of a byte's decimal text gives that byte. |
| `DeviceLabel.TrimStart` | src/worker.rs:100 | `trim_start_matches('[')` returns a suffix with the whole leading run of `[` removed, and nothing else removed. |
| `DeviceLabel.TrimEnd` | src/worker.rs:100 | `trim_end_matches` returns a prefix with the whole trailing run of the character removed, and nothing else removed. |
| `DeviceLabel.SplitAsciiWhitespace` | src/worker.rs:100 | `split_ascii_whitespace` never yields an empty piece, nor one that contains ASCII whitespace. |
| `DeviceLabel.SplitLeadingWord` | src/worker.rs:100 | A word followed by whitespace, or by nothing, is split off as exactly one piece. |
| `DeviceLabel.DebugBody` | src/worker.rs:147 | The text between the brackets is empty exactly for the empty id, and otherwise starts and ends with a digit. |
| `DeviceLabel.ParseTokensPiecewise` | src/worker.rs:100 | A row parses exactly when every piece, with trailing commas trimmed, parses as a `u8`. It then gives one byte per piece, in order. |
| `DeviceLabel.FormatParseRoundTrip` | src/worker.rs:100 | Parsing the label that `format!("{:?}", id)` produced (line 147) gives back exactly `id`, the empty id `[]` included. |
| `DeviceLabel.FormatExample` | src/worker.rs:147 | The id `[1, 2, 3]` is shown as the text `[1, 2, 3]`. |
| `DeviceLabel.OutOfRangeRowFails` | src/worker.rs:100 | A row naming a number above 255, such as `[256]`, fails. In the source the `unwrap` panics. |
| `DeviceLabel.NonNumericRowFails` | src/worker.rs:100 | A one-piece row whose piece ends in neither a digit, a comma nor `]`, such as `[x]`, fails. |
| `DeviceLabel.RowWithoutSpacesFails` | src/worker.rs:100 | `[1,2]`, with no space after the comma, is a single piece and fails. The parser depends on the space that `Debug` writes. |
| `DeviceLabel.Rows` | src/worker.rs:147 | The camera list has one row per device, in order, and row `k` is the formatted id of device `k`. |
| `DeviceLabel.SelectRow` | src/worker.rs:98-100 | An index outside the rows, negative ones included, fails (`row_data(..).unwrap()` panics). |
| `DeviceLabel.SelectListedDevice` | src/worker.rs:98-100 | Picking row `k` of a received list yields exactly device `k`'s id. |
| `Stream.Packets` | src/worker.rs:104-108 | One packet per queued id, in order, and each is read at the receiving end as exactly its id. |
| `Stream.ChosenRowRequestsListedDevice` | src/worker.rs:97-108 | Choosing row `k` makes the session send a packet that asks for exactly device `k`. |
| `Stream.FrameOf` | src/worker.rs:127-132 | Only a binary message carries a frame, and the frame holds width·height·3 bytes. |
| `Stream.ListOf` | src/worker.rs:136-146 | Only a text message carries a device list. |
| `Stream.LastList` | src/worker.rs:111-121 | The list the inbound loop last applied is the list of one of the received messages. |
| `Stream.LastFrame` | src/worker.rs:111-121 | The frame the inbound loop last applied holds width·height·3 bytes. |
| `Stream.FrameReplacesPrevious` | src/worker.rs:127-135 | After a message carrying a frame, followed only by repeats of it or by messages without a frame, the frame shown is that message's frame. |
| `Stream.ListReplacesWholesale` | src/worker.rs:140-149 | After a message carrying a list, whatever came before, the shown list is that message's list. Receiving the same message again changes nothing; the lists are not merged. |
| `Stream.StreamSession.ChangeCamera` | src/worker.rs:97-101 | Queues the id that `SelectRow` reads from row `index`, exactly when the index is in range and the row parses. Otherwise it panics and nothing is queued. With `SelectListedDevice`, choosing row `k` of a received list queues device `k`'s id. |
| `Stream.StreamSession.SendNext` | src/worker.rs:105-108 | Dequeues the oldest id and sends one packet. The packet's `type` is `select_device`, its `device_id.type` is `Buffer`, and its `device_id.data` is the dequeued id, byte for byte. |
| `Stream.StreamSession.SendAll` | src/worker.rs:104-110 | Draining the queue sends one packet for each queued id, in queue order. |
| `Stream.StreamSession.Receive` | src/worker.rs:124-152 | Binary: the frame becomes the decoded width×height RGB buffer, or the handler panics when decoding fails or the byte count is not width·height·3. Parseable text: the camera list becomes one row per device. Unparseable text and every other kind change nothing. The screen, the error text and the address are never touched. |
| `Stream.StreamSession.Listen` | src/worker.rs:111-121 | Handles messages in order until one panics. The frame and the list then are those of the last handled message that carried one. The screen and the error text are untouched. |
| `Worker.StartedSessions` | src/worker.rs:59-62 | Every session a run of commands starts uses the server address read from the window. |
| `Worker.AtMostOneSessionPerLogin` | src/worker.rs:41-63 | A run of commands starts at most one session per login attempt. |
| `Worker.RegistrationsStartNoSession` | src/worker.rs:65-86 | A run of registrations starts no session. |
| `Worker.Worker.Handle` | src/worker.rs:39-87 | Login or registration with a status other than 200: the error text becomes `Error when registering`, the screen is unchanged and no session starts. Login with 200: the screen becomes `Cameras` and exactly one session starts, for the fetched username and the address read from the window. Registration with 200: the screen becomes `Login` and the error text is untouched. A request that could not be sent, or a 200 login without a token or username, panics without writing anything. |
| `Worker.ErrorAfterRejection` | src/worker.rs:48-79 | After a run of commands the error text is `Error when registering` if any command got a status other than 200, and otherwise the text it started with. |
| `Worker.ScreenAfterLogin` | src/worker.rs:59-83 | After an accepted login, with no registration accepted later in the run, the camera screen is shown. |
| `Worker.ScreenAfterRegistration` | src/worker.rs:59-83 | After an accepted registration, with no login accepted later in the run, the login screen is shown. |
| `Worker.ScreenAfterNoneAccepted` | src/worker.rs:48-79 | A run in which no command gets status 200 leaves the screen as it was. |
| `Worker.Worker.Run` | src/worker.rs:38-88 | Handles commands in order until one panics. The sessions started are exactly those of the successful logins. The screen is the one set by the last accepted command (`ScreenAfter`). The error text is the fixed text once any command is rejected (`ErrorAfter`). The camera list, the frame and the address are never touched. |

## Left out

- The tokio runtime, `tokio::select!` and the cancellation token (src/worker.rs:17-34, 111-121): these are scheduling and cooperative cancellation. The loops `Worker.Worker.Run` and `Stream.StreamSession.Listen` run over a finite input and stop when it ends or a panic occurs. In the source, a closed command channel makes `recv().unwrap()` panic; the model does not show that panic.
- The two streaming loops run concurrently in the source. The model treats them as separate methods and does not model their interleaving.
- HTTP: request bodies, URL formatting and headers (src/worker.rs:47, 54-57, 75). They become the given `Exchange`. The `LoginData` and `RegistrationData` carried by a command are therefore not looked at.
- WebSocket connect, split, send and receive (src/worker.rs:92-93, 108, 116-118). Connecting is a session record, sending appends to `sent`, and receiving is the given message sequence.
- JPEG decoding and JSON (de)serialisation (src/worker.rs:128-130, 108, 140). They are the function parameters `decode` and `parse`. The JSON text of the outbound packet is not produced; the packet is kept as a record.
- Marshalling onto the UI thread and the one-shot reply channel (src/worker.rs:42-46, 66-70). Window writes are direct field assignments, in issue order. The `unwrap` on `upgrade_in_event_loop`, which fails only once the event loop has gone, is not modelled.
- Worker.Worker.Run: the user may edit the server address between commands. The model does not capture that, although `Handle` does read the address at call time.
- Stream.StreamSession.ChangeCamera: does not model `blocking_send` blocking on a full channel (capacity 5, src/worker.rs:94, 101). The queue is unbounded here.
- Stream.StreamSession.Receive: does not model the `as u32` casts of the image dimensions, because JPEG dimensions are at most 65535 and the casts never truncate.
- Stream.StreamSession.Receive: the pixel buffer is a value of type `seq`, not an in-place buffer. The `copy_from_slice` length check is kept.
- The device list's own `type` field and each device's `createdAt` are carried but never checked or used, as in the source.
- `WindowState`: the source names only `WindowState::Cameras` (src/worker.rs:60) and `WindowState::Login` (src/worker.rs:82). The UI declaration is not part of this model, so the third variant, `Registration`, is an assumption. The worker never sets it.
- Session-side panics: a failed connect (src/worker.rs:92), a window that is gone when the callback runs (98, `window_clone.upgrade().unwrap()`), a closed camera channel at `blocking_send` (101), a closed channel at the outbound loop's `recv().await.unwrap()` (106), a failed socket write (108), and a socket that ends or fails (117, `data.unwrap().unwrap()`). The model does not show these. `Stream.StreamSession.Listen` ends normally at the end of its input, where the source panics. A panic in the worker task returns from `block_on` (line 19), which drops the runtime and ends any running streaming session; the model does not show that either.
- Several sessions: each session registers the change-camera callback again (src/worker.rs:96-102), so only the newest session receives camera changes. Replacing the callback drops the older session's only channel sender, and that session's outbound loop then panics at :106. The inbound loops of all started sessions write to the same window (src/worker.rs:133-134, 148-149). The model treats each `Stream.StreamSession` on its own: every session accepts `ChangeCamera`, and `SendNext` on an empty queue returns `false` instead of waiting or panicking.
- The `println!` diagnostics (src/worker.rs:23, 27, 55, 58, 74, 143), including the "Received unknown packet" log on unparseable text, and the `ClientBuilder::new().build().unwrap()` at :37. They write no window state.
- src/main.rs (window creation, callback wiring, event loop, shutdown) is not part of this model. It wires only the register callback (src/main.rs:15-17). No code sends `AttemptLogin`, so the login branch and every streaming session cannot be reached in this version. The model treats a login command as a possible input.
