/**
 * The serialisable records of src/worker.rs, as plain values.
 * Field names follow the Rust structs; the JSON key each one is renamed to
 * is given in a comment.
 */
module Records {

  /** A Rust `u8`. */
  type Byte = b: int | 0 <= b < 256

  /** The text the worker writes to the error slot, for failed logins and registrations alike. */
  const RegisterErrorText: string := "Error when registering"

  /** The `type` tag of an outbound device-select packet. */
  const SelectDeviceType: string := "select_device"

  /** The `type` tag of a serialised Node.js Buffer. */
  const BufferType: string := "Buffer"

  /** `DeviceId`: a serialised byte buffer; `contentType` is the JSON key `type`. */
  datatype DeviceId = DeviceId(contentType: string, data: seq<Byte>)

  /** `DeviceData`: one camera; `createdAt` is parsed but never used. */
  datatype DeviceData = DeviceData(id: DeviceId, createdAt: string)

  /** `DeviceList`: the only inbound text message; `messageType` is the JSON key `type`. */
  datatype DeviceList = DeviceList(messageType: string, devices: seq<DeviceData>)

  /** `DeviceSelectPacket`: the only outbound text message; `messageType` is the JSON key `type`. */
  datatype DeviceSelectPacket = DeviceSelectPacket(messageType: string, deviceId: DeviceId)

  /** `LoginData`, the body of POST /login. */
  datatype LoginData = LoginData(email: string, password: string)

  /** `RegistrationData`, the body of POST /register/user. */
  datatype RegistrationData = RegistrationData(username: string, email: string, password: string)

  /** `WorkerMessage`: the commands the UI sends to the worker. */
  datatype WorkerMessage =
    | AttemptLogin(login: LoginData)
    | AttemptRegister(registration: RegistrationData)
}
