/** Status codes of the two libraries the backend sits between, and the
    translation from libusb's codes to libbladeRF's (error_conv in libusb.c).

    The numeric values are those of the public headers libusb.h and
    libbladeRF.h; those headers are not part of this model. */
module Errors {

  // libusb_error
  const LIBUSB_SUCCESS: int := 0
  const LIBUSB_ERROR_IO: int := -1
  const LIBUSB_ERROR_INVALID_PARAM: int := -2
  const LIBUSB_ERROR_ACCESS: int := -3
  const LIBUSB_ERROR_NO_DEVICE: int := -4
  const LIBUSB_ERROR_NOT_FOUND: int := -5
  const LIBUSB_ERROR_BUSY: int := -6
  const LIBUSB_ERROR_TIMEOUT: int := -7
  const LIBUSB_ERROR_OVERFLOW: int := -8
  const LIBUSB_ERROR_PIPE: int := -9
  const LIBUSB_ERROR_INTERRUPTED: int := -10
  const LIBUSB_ERROR_NO_MEM: int := -11
  const LIBUSB_ERROR_NOT_SUPPORTED: int := -12
  const LIBUSB_ERROR_OTHER: int := -99

  // libbladeRF error codes
  const BLADERF_ERR_UNEXPECTED: int := -1
  const BLADERF_ERR_INVAL: int := -3
  const BLADERF_ERR_MEM: int := -4
  const BLADERF_ERR_IO: int := -5
  const BLADERF_ERR_TIMEOUT: int := -6
  const BLADERF_ERR_NODEV: int := -7
  const BLADERF_ERR_UNSUPPORTED: int := -8
  const BLADERF_ERR_PERMISSION: int := -17
  const BLADERF_ERR_WOULD_BLOCK: int := -18

  /** The libbladeRF codes error_conv can produce, success included. */
  predicate IsConvertedCode(r: int)
  {
    r in {0, BLADERF_ERR_IO, BLADERF_ERR_INVAL, BLADERF_ERR_NODEV, BLADERF_ERR_TIMEOUT,
          BLADERF_ERR_MEM, BLADERF_ERR_UNSUPPORTED, BLADERF_ERR_PERMISSION,
          BLADERF_ERR_UNEXPECTED}
  }

  /** error_conv: a total map from any int (a libusb error code, or a byte
      count that a caller passes through unchanged) to a libbladeRF code. */
  function ErrorConv(e: int): (r: int)
    ensures IsConvertedCode(r) && r <= 0
    ensures r == 0 <==> e == 0
    ensures r == BLADERF_ERR_IO <==> e == LIBUSB_ERROR_IO
    ensures r == BLADERF_ERR_INVAL <==> e == LIBUSB_ERROR_INVALID_PARAM
    ensures r == BLADERF_ERR_NODEV <==> (e == LIBUSB_ERROR_BUSY || e == LIBUSB_ERROR_NO_DEVICE)
    ensures r == BLADERF_ERR_TIMEOUT <==> e == LIBUSB_ERROR_TIMEOUT
    ensures r == BLADERF_ERR_MEM <==> e == LIBUSB_ERROR_NO_MEM
    ensures r == BLADERF_ERR_UNSUPPORTED <==> e == LIBUSB_ERROR_NOT_SUPPORTED
    ensures r == BLADERF_ERR_PERMISSION <==> e == LIBUSB_ERROR_ACCESS
    // every positive value (a byte count) is "unexpected"
    ensures e > 0 ==> r == BLADERF_ERR_UNEXPECTED
  {
    if e == 0 then 0
    else if e == LIBUSB_ERROR_IO then BLADERF_ERR_IO
    else if e == LIBUSB_ERROR_INVALID_PARAM then BLADERF_ERR_INVAL
    else if e == LIBUSB_ERROR_BUSY || e == LIBUSB_ERROR_NO_DEVICE then BLADERF_ERR_NODEV
    else if e == LIBUSB_ERROR_TIMEOUT then BLADERF_ERR_TIMEOUT
    else if e == LIBUSB_ERROR_NO_MEM then BLADERF_ERR_MEM
    else if e == LIBUSB_ERROR_NOT_SUPPORTED then BLADERF_ERR_UNSUPPORTED
    else if e == LIBUSB_ERROR_ACCESS then BLADERF_ERR_PERMISSION
    // OVERFLOW, PIPE, INTERRUPTED, NOT_FOUND and everything else
    else BLADERF_ERR_UNEXPECTED
  }
}
