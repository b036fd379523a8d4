/**
 * The part of the main window's state that the worker reads and writes.
 * In the program every write is a closure queued onto the UI event loop; here
 * it is a direct assignment to these fields, in the order the worker issues it.
 */
module Ui {
  import opened Wrappers
  import opened Records

  /**
   * The screens of the main window. The worker sets only `Login` and `Cameras`;
   * the UI declaration is not part of this model, and `Registration` is an
   * assumed third screen.
   */
  datatype WindowState = Login | Registration | Cameras

  /** A decoded frame: an RGB8 pixel buffer of `width` by `height` pixels. */
  datatype Frame = Frame(width: nat, height: nat, pixels: seq<Byte>) {
    /** Three bytes per pixel, no padding, no alpha. */
    predicate Valid() {
      |pixels| == width * height * 3
    }
  }

  class MainWindow {
    /** The server address field the user types in. */
    var serverAddress: string
    var screen: WindowState
    /** The single error-message slot. */
    var errorMessage: string
    /** The rows of the camera list, one label per device. */
    var cameras: seq<string>
    /** The frame shown; `None` before the first frame arrives. */
    var frame: Option<Frame>

    ghost predicate Valid()
      reads this
    {
      frame.Some? ==> frame.value.Valid()
    }

    constructor (serverAddress: string, screen: WindowState)
      ensures Valid()
      ensures this.serverAddress == serverAddress && this.screen == screen
      ensures errorMessage == "" && cameras == [] && frame == None
    {
      this.serverAddress := serverAddress;
      this.screen := screen;
      errorMessage := "";
      cameras := [];
      frame := None;
    }
  }
}
