/**
 * One streaming session, `camera_list_task` (src/worker.rs:91-152): the
 * camera-change callback that queues device ids, the outbound loop that sends
 * them as device-select packets, and the inbound handler that puts frames and
 * device lists into the window.
 *
 * The JPEG decoder and the JSON parser are library code; they are the
 * function parameters `decode` and `parse`, so the same payload always gives
 * the same answer.
 */
module Stream {
  import opened Wrappers
  import opened Records
  import opened DeviceLabel
  import opened Ui

  /** A WebSocket message as the socket delivers it. */
  datatype Message =
    | Text(text: string)
    | Binary(data: seq<Byte>)
    | Ping(payload: seq<Byte>)
    | Pong(payload: seq<Byte>)
    | Close
    | RawFrame

  /** What the JPEG decoder gives for a payload: the decoded bytes and the image dimensions. */
  datatype Decoded = Decoded(pixels: seq<Byte>, width: nat, height: nat)

  // ---------------------------------------------------------------------
  // Outbound packets

  /** The packet that asks the server for device `id` (src/worker.rs:107). */
  function SelectPacket(id: seq<Byte>): DeviceSelectPacket {
    DeviceSelectPacket(SelectDeviceType, DeviceId(BufferType, id))
  }

  /** How the receiving end reads a device-select packet: the buffer's bytes, when both tags are the expected ones. */
  function RequestedDevice(p: DeviceSelectPacket): Option<seq<Byte>> {
    if p.messageType == SelectDeviceType && p.deviceId.contentType == BufferType then Some(p.deviceId.data) else None
  }

  /** The packets for a sequence of ids, in order; each one asks for its id and nothing else. */
  function Packets(ids: seq<seq<Byte>>): (ps: seq<DeviceSelectPacket>)
    ensures |ps| == |ids|
    ensures forall k :: 0 <= k < |ids| ==> RequestedDevice(ps[k]) == Some(ids[k])
  {
    if ids == [] then [] else [SelectPacket(ids[0])] + Packets(ids[1..])
  }

  /** Choosing row `k` of a received device list makes the session ask for exactly device `k`. */
  lemma ChosenRowRequestsListedDevice(devices: seq<DeviceData>, k: int)
    requires 0 <= k < |devices|
    ensures SelectRow(Rows(devices), k).Some?
    ensures RequestedDevice(SelectPacket(SelectRow(Rows(devices), k).value)) == Some(devices[k].id.data)
  {
    SelectListedDevice(devices, k);
  }

  // ---------------------------------------------------------------------
  // Inbound messages

  /** The frame a binary message carries, if its payload decodes to exactly width·height·3 bytes. */
  function FrameOf(message: Message, decode: seq<Byte> -> Option<Decoded>): (f: Option<Frame>)
    ensures f.Some? ==> message.Binary? && f.value.Valid()
  {
    if message.Binary? && decode(message.data).Some? then
      var d := decode(message.data).value;
      if |d.pixels| == d.width * d.height * 3 then Some(Frame(d.width, d.height, d.pixels)) else None
    else None
  }

  /** The device list a text message carries, if it parses. */
  function ListOf(message: Message, parse: string -> Option<DeviceList>): (l: Option<DeviceList>)
    ensures l.Some? ==> message.Text?
  {
    if message.Text? then parse(message.text) else None
  }

  /**
   * The handler panics on a binary message that does not decode, or whose
   * decoded length is not width·height·3 (`copy_from_slice` demands equal
   * lengths). Text that does not parse, and every other kind, is not a panic.
   */
  predicate Panics(message: Message, decode: seq<Byte> -> Option<Decoded>) {
    message.Binary? && FrameOf(message, decode).None?
  }

  /** The device list of the last message in `messages` that carries one. */
  function LastList(messages: seq<Message>, parse: string -> Option<DeviceList>): (l: Option<DeviceList>)
    ensures l.Some? ==> exists k :: 0 <= k < |messages| && ListOf(messages[k], parse) == l
  {
    if messages == [] then None
    else
      var last := messages[|messages| - 1];
      if ListOf(last, parse).Some? then ListOf(last, parse) else LastList(messages[..|messages| - 1], parse)
  }

  /** The frame of the last message in `messages` that carries one. */
  function LastFrame(messages: seq<Message>, decode: seq<Byte> -> Option<Decoded>): (f: Option<Frame>)
    ensures f.Some? ==> f.value.Valid()
    ensures f.Some? ==> exists k :: 0 <= k < |messages| && FrameOf(messages[k], decode) == f
  {
    if messages == [] then None
    else
      var last := messages[|messages| - 1];
      if FrameOf(last, decode).Some? then FrameOf(last, decode) else LastFrame(messages[..|messages| - 1], decode)
  }

  /**
   * A parsed list replaces the camera list wholesale: whatever came before,
   * after a message carrying a list the rows are that list's, and receiving the
   * same message again leaves the same rows.
   */
  lemma {:induction false} ListReplacesWholesale(before: seq<Message>, m: Message, after: seq<Message>, parse: string -> Option<DeviceList>)
    requires ListOf(m, parse).Some?
    requires forall k :: 0 <= k < |after| ==> ListOf(after[k], parse).None? || after[k] == m
    ensures LastList(before + [m] + after, parse) == ListOf(m, parse)
    decreases |after|
  {
    var ms := before + [m] + after;
    if after != [] {
      assert ms[..|ms| - 1] == before + [m] + after[..|after| - 1];
      if ListOf(after[|after| - 1], parse).None? {
        ListReplacesWholesale(before, m, after[..|after| - 1], parse);
      }
    }
  }

  /**
   * A decoded frame replaces the one shown: after a message carrying a frame,
   * followed only by repeats of it or by messages without one, the frame shown
   * is that message's frame.
   */
  lemma {:induction false} FrameReplacesPrevious(before: seq<Message>, m: Message, after: seq<Message>, decode: seq<Byte> -> Option<Decoded>)
    requires FrameOf(m, decode).Some?
    requires forall k :: 0 <= k < |after| ==> FrameOf(after[k], decode).None? || after[k] == m
    ensures LastFrame(before + [m] + after, decode) == FrameOf(m, decode)
    decreases |after|
  {
    var ms := before + [m] + after;
    if after != [] {
      assert ms[..|ms| - 1] == before + [m] + after[..|after| - 1];
      if FrameOf(after[|after| - 1], decode).None? {
        FrameReplacesPrevious(before, m, after[..|after| - 1], decode);
      }
    }
  }

  class StreamSession {
    const window: MainWindow
    const username: string
    const serverAddress: string
    /** Device ids queued by the camera-change callback and not yet sent: the camera-changer channel. */
    var pending: seq<seq<Byte>>
    /** The device-select packets written to the socket, in order. */
    var sent: seq<DeviceSelectPacket>

    constructor (window: MainWindow, username: string, serverAddress: string)
      ensures this.window == window && this.username == username && this.serverAddress == serverAddress
      ensures pending == [] && sent == []
    {
      this.window := window;
      this.username := username;
      this.serverAddress := serverAddress;
      pending := [];
      sent := [];
    }

    /**
     * The change-camera callback (src/worker.rs:97-101): read row `index` of
     * the camera list, parse it and queue the id. `ok` is false where the
     * callback panics: an index outside the list or a row that does not parse.
     */
    method ChangeCamera(index: int) returns (ok: bool)
      modifies this`pending
      ensures ok <==> SelectRow(window.cameras, index).Some?
      ensures ok ==> pending == old(pending) + [SelectRow(window.cameras, index).value]
      ensures !ok ==> pending == old(pending)
    {
      if index < 0 || index >= |window.cameras| {
        return false;
      }
      var id := ParseLabel(window.cameras[index]);
      if id.None? {
        return false;
      }
      pending := pending + [id.value];
      ok := true;
    }

    /** One turn of the outbound loop (src/worker.rs:105-108): take the oldest queued id and send its packet. */
    method SendNext() returns (sentOne: bool)
      modifies this`pending, this`sent
      ensures sentOne <==> old(pending) != []
      ensures sentOne ==> pending == old(pending)[1..]
      ensures sentOne ==> |sent| == |old(sent)| + 1 && sent[..|old(sent)|] == old(sent)
      ensures sentOne ==>
        var p := sent[|old(sent)|];
        p.messageType == "select_device" && p.deviceId.contentType == "Buffer" && p.deviceId.data == old(pending)[0]
      ensures !sentOne ==> pending == old(pending) && sent == old(sent)
    {
      if pending == [] {
        return false;
      }
      var id := pending[0];
      pending := pending[1..];
      sent := sent + [SelectPacket(id)];
      sentOne := true;
    }

    /** The outbound loop run until the queue is empty: every queued id is sent, in order. */
    method SendAll()
      modifies this`pending, this`sent
      ensures pending == []
      ensures sent == old(sent) + Packets(old(pending))
    {
      ghost var queue := pending;
      ghost var i := 0;
      while pending != []
        invariant 0 <= i <= |queue|
        invariant pending == queue[i..]
        invariant sent == old(sent) + Packets(queue[..i])
        decreases |pending|
      {
        var sentOne := SendNext();
        PacketsAppend(queue[..i], queue[i]);
        assert queue[..i + 1] == queue[..i] + [queue[i]];
        assert queue[i..][1..] == queue[i + 1..];
        i := i + 1;
      }
      assert queue[..i] == queue;
    }

    /**
     * `handle_websocket_message` (src/worker.rs:124-152). A binary message
     * becomes the new frame; a text message that parses as a device list
     * becomes the new camera list, one row per device; anything else changes
     * nothing. `ok` is false where the handler panics, before any write.
     */
    method Receive(message: Message, decode: seq<Byte> -> Option<Decoded>, parse: string -> Option<DeviceList>)
      returns (ok: bool)
      requires window.Valid()
      modifies window
      ensures window.Valid()
      ensures ok <==> !Panics(message, decode)
      ensures window.serverAddress == old(window.serverAddress)
      ensures window.screen == old(window.screen) && window.errorMessage == old(window.errorMessage)
      ensures message.Binary? && ok ==>
        var d := decode(message.data).value;
        window.frame == Some(Frame(d.width, d.height, d.pixels)) && |d.pixels| == d.width * d.height * 3
      ensures !(message.Binary? && ok) ==> window.frame == old(window.frame)
      ensures message.Text? && parse(message.text).Some? ==> window.cameras == Rows(parse(message.text).value.devices)
      ensures !(message.Text? && parse(message.text).Some?) ==> window.cameras == old(window.cameras)
    {
      match message
      case Binary(data) =>
        var image := decode(data);
        if image.None? {
          return false;
        }
        var d := image.value;
        if |d.pixels| != d.width * d.height * 3 {
          return false;
        }
        window.frame := Some(Frame(d.width, d.height, d.pixels));
        ok := true;
      case Text(text) =>
        var list := parse(text);
        if list.Some? {
          window.cameras := Rows(list.value.devices);
        }
        ok := true;
      case _ =>
        ok := true;
    }

    /**
     * The inbound loop (src/worker.rs:111-121) over the messages that arrive,
     * until one makes the handler panic. Afterwards the frame and the camera
     * list are those of the last handled message that carried one.
     */
    method Listen(messages: seq<Message>, decode: seq<Byte> -> Option<Decoded>, parse: string -> Option<DeviceList>)
      returns (handled: nat)
      requires window.Valid()
      modifies window
      ensures window.Valid()
      ensures handled <= |messages|
      ensures forall k :: 0 <= k < handled ==> !Panics(messages[k], decode)
      ensures handled < |messages| ==> Panics(messages[handled], decode)
      ensures window.serverAddress == old(window.serverAddress)
      ensures window.screen == old(window.screen) && window.errorMessage == old(window.errorMessage)
      ensures window.cameras ==
        if LastList(messages[..handled], parse).Some? then Rows(LastList(messages[..handled], parse).value.devices)
        else old(window.cameras)
      ensures window.frame ==
        if LastFrame(messages[..handled], decode).Some? then LastFrame(messages[..handled], decode) else old(window.frame)
    {
      handled := 0;
      while handled < |messages|
        invariant handled <= |messages|
        invariant window.Valid()
        invariant forall k :: 0 <= k < handled ==> !Panics(messages[k], decode)
        invariant window.serverAddress == old(window.serverAddress)
        invariant window.screen == old(window.screen) && window.errorMessage == old(window.errorMessage)
        invariant window.cameras == ShownCameras(messages[..handled], old(window.cameras), parse)
        invariant window.frame == ShownFrame(messages[..handled], old(window.frame), decode)
        decreases |messages| - handled
      {
        ghost var seen := messages[..handled];
        var m := messages[handled];
        var ok := Receive(m, decode, parse);
        if !ok {
          ShownIsLast(seen, old(window.cameras), old(window.frame), decode, parse);
          return;
        }
        assert messages[..handled + 1] == seen + [m];
        assert (seen + [m])[..handled] == seen;
        handled := handled + 1;
      }
      ShownIsLast(messages[..handled], old(window.cameras), old(window.frame), decode, parse);
    }
  }

  /** The camera rows after handling `messages`, starting from `cameras0`: the rows of the last list received. */
  ghost function ShownCameras(messages: seq<Message>, cameras0: seq<string>, parse: string -> Option<DeviceList>): seq<string> {
    if messages == [] then cameras0
    else
      var last := messages[|messages| - 1];
      if ListOf(last, parse).Some? then Rows(ListOf(last, parse).value.devices)
      else ShownCameras(messages[..|messages| - 1], cameras0, parse)
  }

  /** The frame after handling `messages`, starting from `frame0`: the last frame received. */
  ghost function ShownFrame(messages: seq<Message>, frame0: Option<Frame>, decode: seq<Byte> -> Option<Decoded>): Option<Frame> {
    if messages == [] then frame0
    else
      var last := messages[|messages| - 1];
      if FrameOf(last, decode).Some? then FrameOf(last, decode)
      else ShownFrame(messages[..|messages| - 1], frame0, decode)
  }

  /** What the window shows after handling `messages` is given by the last list and the last frame among them. */
  lemma {:induction false} ShownIsLast(messages: seq<Message>, cameras0: seq<string>, frame0: Option<Frame>,
                                       decode: seq<Byte> -> Option<Decoded>, parse: string -> Option<DeviceList>)
    ensures ShownCameras(messages, cameras0, parse) ==
      if LastList(messages, parse).Some? then Rows(LastList(messages, parse).value.devices) else cameras0
    ensures ShownFrame(messages, frame0, decode) ==
      if LastFrame(messages, decode).Some? then LastFrame(messages, decode) else frame0
  {
    if messages != [] {
      ShownIsLast(messages[..|messages| - 1], cameras0, frame0, decode, parse);
    }
  }

  lemma PacketsAppend(ids: seq<seq<Byte>>, id: seq<Byte>)
    ensures Packets(ids + [id]) == Packets(ids) + [SelectPacket(id)]
  {
    if ids != [] {
      assert (ids + [id])[1..] == ids[1..] + [id];
      PacketsAppend(ids[1..], id);
    }
  }
}
