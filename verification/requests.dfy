/** The synchronous helpers of the libusb backend that are pure code
    mappings: the bmRequestType byte of a control request, the device-speed
    classification, and the way the control, bulk and string-descriptor
    wrappers turn libusb's return values into libbladeRF codes. */
module Requests {
  import opened Wrappers
  import opened Errors

  type int32 = x: int | -0x8000_0000 <= x < 0x8000_0000
  type uint32 = x: int | 0 <= x < 0x1_0000_0000

  /** The C cast (uint32_t) of a 32-bit signed value: two's-complement
      reinterpretation, i.e. reduction modulo 2^32. */
  function ToUint32(x: int32): (r: uint32)
    ensures x >= 0 ==> r == x
    ensures x < 0 ==> r == x + 0x1_0000_0000
  {
    x % 0x1_0000_0000
  }

  // ---------------------------------------------------------------------
  // bmRequestType (section 9.3.1, Table 9-2, of the USB 2.0 specification):
  // bit 7 is the direction, bits 6..5 the type, bits 4..0 the recipient.

  datatype UsbTarget = TargetDevice | TargetInterface | TargetEndpoint | TargetOther
  datatype UsbRequest = RequestStandard | RequestClass | RequestVendor
  datatype UsbDirection = HostToDevice | DeviceToHost

  const LIBUSB_RECIPIENT_DEVICE: bv8 := 0x00
  const LIBUSB_RECIPIENT_INTERFACE: bv8 := 0x01
  const LIBUSB_RECIPIENT_ENDPOINT: bv8 := 0x02
  const LIBUSB_RECIPIENT_OTHER: bv8 := 0x03
  const LIBUSB_REQUEST_TYPE_STANDARD: bv8 := 0x00
  const LIBUSB_REQUEST_TYPE_CLASS: bv8 := 0x20
  const LIBUSB_REQUEST_TYPE_VENDOR: bv8 := 0x40
  const LIBUSB_ENDPOINT_OUT: bv8 := 0x00
  const LIBUSB_ENDPOINT_IN: bv8 := 0x80

  /** Reads a bmRequestType byte back into its three fields as Table 9-2
      defines them; None for a reserved recipient (4..31) or the reserved
      type 3. This is the independent decoder against which
      BmRequestType is checked. */
  function ParseRequestType(b: bv8): Option<(UsbTarget, UsbRequest, UsbDirection)>
  {
    var recipient := b & 0x1F;
    var kind := (b >> 5) & 0x03;
    var dir := if b & 0x80 == 0 then HostToDevice else DeviceToHost;
    if recipient > 3 || kind == 3 then None
    else
      var t := if recipient == 0 then TargetDevice
               else if recipient == 1 then TargetInterface
               else if recipient == 2 then TargetEndpoint
               else TargetOther;
      var q := if kind == 0 then RequestStandard
               else if kind == 1 then RequestClass
               else RequestVendor;
      Some((t, q, dir))
  }

  /** bm_request_type: OR together the recipient, type and direction bits. */
  function BmRequestType(target: UsbTarget, request: UsbRequest, direction: UsbDirection): (r: bv8)
    // the byte decodes back to exactly the fields it was built from
    ensures ParseRequestType(r) == Some((target, request, direction))
    // bits 4..2 of the recipient field are never set
    ensures r & 0x1C == 0
  {
    var recipient := match target
      case TargetDevice => LIBUSB_RECIPIENT_DEVICE
      case TargetInterface => LIBUSB_RECIPIENT_INTERFACE
      case TargetEndpoint => LIBUSB_RECIPIENT_ENDPOINT
      case TargetOther => LIBUSB_RECIPIENT_OTHER;
    var kind := match request
      case RequestStandard => LIBUSB_REQUEST_TYPE_STANDARD
      case RequestClass => LIBUSB_REQUEST_TYPE_CLASS
      case RequestVendor => LIBUSB_REQUEST_TYPE_VENDOR;
    var dir := match direction
      case HostToDevice => LIBUSB_ENDPOINT_OUT
      case DeviceToHost => LIBUSB_ENDPOINT_IN;
    0 | recipient | kind | dir
  }

  /** Different requests never share a bmRequestType byte. */
  lemma BmRequestTypeInjective(t1: UsbTarget, q1: UsbRequest, d1: UsbDirection,
                               t2: UsbTarget, q2: UsbRequest, d2: UsbDirection)
    requires BmRequestType(t1, q1, d1) == BmRequestType(t2, q2, d2)
    ensures t1 == t2 && q1 == q2 && d1 == d2
  {
    assert ParseRequestType(BmRequestType(t1, q1, d1)) == Some((t1, q1, d1));
    assert ParseRequestType(BmRequestType(t2, q2, d2)) == Some((t2, q2, d2));
  }

  // ---------------------------------------------------------------------
  // lusb_get_speed

  const LIBUSB_SPEED_UNKNOWN: int := 0
  const LIBUSB_SPEED_LOW: int := 1
  const LIBUSB_SPEED_FULL: int := 2
  const LIBUSB_SPEED_HIGH: int := 3
  const LIBUSB_SPEED_SUPER: int := 4

  datatype DeviceSpeed = SpeedUnknown | SpeedHigh | SpeedSuper
  datatype SpeedResult = SpeedResult(status: int, speed: DeviceSpeed)

  /** lusb_get_speed, given what libusb_get_device_speed reported. */
  function GetSpeed(libusbSpeed: int): (r: SpeedResult)
    // only high and super speed are usable, and then the speed is known
    ensures r.status == 0 <==> libusbSpeed in {LIBUSB_SPEED_HIGH, LIBUSB_SPEED_SUPER}
    ensures r.speed == SpeedSuper <==> libusbSpeed == LIBUSB_SPEED_SUPER
    ensures r.speed == SpeedHigh <==> libusbSpeed == LIBUSB_SPEED_HIGH
    ensures r.status == 0 <==> r.speed != SpeedUnknown
    // full and low speed are recognised but refused; anything else
    // (including libusb's super-speed-plus) is unexpected
    ensures r.status == BLADERF_ERR_UNSUPPORTED <==> libusbSpeed in {LIBUSB_SPEED_FULL, LIBUSB_SPEED_LOW}
    ensures r.status != 0 && r.status != BLADERF_ERR_UNSUPPORTED ==> r.status == BLADERF_ERR_UNEXPECTED
  {
    if libusbSpeed == LIBUSB_SPEED_SUPER then SpeedResult(0, SpeedSuper)
    else if libusbSpeed == LIBUSB_SPEED_HIGH then SpeedResult(0, SpeedHigh)
    else if libusbSpeed == LIBUSB_SPEED_FULL || libusbSpeed == LIBUSB_SPEED_LOW then
      SpeedResult(BLADERF_ERR_UNSUPPORTED, SpeedUnknown)
    else SpeedResult(BLADERF_ERR_UNEXPECTED, SpeedUnknown)
  }

  // ---------------------------------------------------------------------
  // Result normalisation of the synchronous transfer wrappers

  /** lusb_control_transfer as written: a status equal to the buffer length
      is turned into 0, everything else goes through error_conv. Because
      error_conv maps 0 to 0, a reply of zero bytes to a non-empty request
      also comes out as success. */
  function ControlTransferResult(status: int32, bufferLen: uint32): (r: int)
    ensures IsConvertedCode(r)
    ensures r == 0 <==> (status == bufferLen || status == 0)
    ensures status < 0 ==> r == ErrorConv(status)
    ensures status > 0 && status != bufferLen ==> r == BLADERF_ERR_UNEXPECTED
  {
    if status >= 0 && ToUint32(status) == bufferLen then ErrorConv(0)
    else ErrorConv(status)
  }

  /** The discrepancy: four bytes requested, none transferred, and the
      wrapper still reports success. */
  lemma ZeroByteControlReplyAccepted()
    ensures ControlTransferResult(0, 4) == 0
  {
  }

  /** The control-transfer normalisation as evidently intended: only a
      transfer of exactly bufferLen bytes is success; any other non-negative
      count is unexpected and a libusb error is translated. */
  function ControlTransferResultStrict(status: int32, bufferLen: uint32): (r: int)
    ensures IsConvertedCode(r)
    ensures r == 0 <==> status == bufferLen
    ensures status < 0 ==> r == ErrorConv(status)
    ensures status >= 0 && status != bufferLen ==> r == BLADERF_ERR_UNEXPECTED
  {
    if status >= 0 && ToUint32(status) == bufferLen then 0
    else if status >= 0 then BLADERF_ERR_UNEXPECTED
    else ErrorConv(status)
  }

  /** The two agree everywhere except on a zero-byte reply to a non-empty
      request. */
  lemma ControlResultsAgree(status: int32, bufferLen: uint32)
    requires !(status == 0 && bufferLen != 0)
    ensures ControlTransferResult(status, bufferLen) == ControlTransferResultStrict(status, bufferLen)
  {
  }

  /** lusb_bulk_transfer: the libusb status goes through error_conv, and a
      successful but short transfer becomes an I/O error. */
  function BulkTransferResult(status: int32, transferred: int32, bufferLen: uint32): (r: int)
    ensures IsConvertedCode(r)
    ensures r == 0 <==> status == 0 && ToUint32(transferred) == bufferLen
    ensures status != 0 ==> r == ErrorConv(status)
    ensures status == 0 && ToUint32(transferred) != bufferLen ==> r == BLADERF_ERR_IO
  {
    var s := ErrorConv(status);
    if s == 0 && ToUint32(transferred) != bufferLen then BLADERF_ERR_IO else s
  }

  /** lusb_get_string_descriptor: success only for a non-empty string that
      leaves room in the buffer; libusb errors are not translated but all
      become "unexpected". */
  function StringDescriptorResult(status: int32, bufferLen: uint32): (r: int)
    ensures r == 0 <==> 0 < status < bufferLen
    ensures r != 0 ==> r == BLADERF_ERR_UNEXPECTED
    ensures status < 0 ==> r == BLADERF_ERR_UNEXPECTED
  {
    if status > 0 && ToUint32(status) < bufferLen then 0 else BLADERF_ERR_UNEXPECTED
  }
}
