# UART GNSS receiver client — Dafny model

`uart.c` is the client side of a serial GNSS receiver reached through an
`ara::com` service. When the service appears, the client binds one proxy,
subscribes to the receiver's data event and starts a sender thread. Each
data event sample holds a BESTPOS frame. The client reads it in place as a
28-byte header followed, at offset `header_len`, by a position record. The
sender writes a test payload to the receiver forever. It bumps the payload's
sequence number and every data element before each send.

This project models that sequential core:

- `Bytes`: unsigned fields and their little-endian byte encoding, as read on a
  little-endian target.
- `BestPos`: the header and record layouts at their fixed byte offsets. It has
  the two views the client takes of a sample buffer and an independent encoder
  (a byte-by-byte layout table). It proves round trips, locality (which bytes
  each view depends on) and where the printed fields sit. It also has a checked
  decoder that is a strengthening: the client itself checks nothing.
- `Command`: the sender's payload. It covers the initial value, the in-place
  step of each loop iteration, the payload after k iterations in closed form,
  and the result codes received for ready replies.
- `Uart`: the client object (`UartDataReceive`) and its proxy as classes. It
  covers set-once proxy binding, draining the event cache, and the sender loop,
  bounded by a list of reply outcomes.

What the code does, and how the model follows it:

- The code validates nothing. It casts the sample buffer to the header and
  reads the record at `header_len` (uart.c:108, 113), without checking the
  sync bytes, `header_len` or `validLen` (it only uses `header_len` as the
  record offset and prints both, uart.c:110-113). So `DecodeFrame` requires that both
  views fit in the buffer, and `DecodeChecked` is an added, stricter decoder
  that the code does not have.
- On a timeout, the `continue` at uart.c:153 jumps back to the increments at
  uart.c:145-148. So the sequence number and the data advance on every
  iteration, whether the reply was ready or timed out. `UartSetData` proves
  exactly that.
- The structures at uart.c:52-90 use natural alignment. Their fields need no
  interior padding: the header is 28 bytes and the record's fields end at
  byte 76. `sizeof(BestPosMsg)` is 80 because of tail padding, but only the
  76 bytes of fields are ever read. The model decodes by explicit byte offsets.

## Model

| member | source | states |
|---|---|---|
| `Bytes.DecodeEncode` | uart.c:52-90 | reading back the n-byte little-endian encoding of any value below 256^n gives that value |
| `Bytes.EncodeDecode` | uart.c:52-90 | re-encoding the value of any byte string at its own width gives the same bytes, so a field's value determines its bytes |
| `BestPos.DecodeFrame` | uart.c:108-113 | the header's header_len is byte 3 of the buffer, and the record is the view starting at exactly that offset; the header view is `BestPos.DecodeHeader` (fixed offsets from byte 0, uart.c:52-67) and the record view is `BestPos.DecodeMsgAt`, which applies `BestPos.DecodeRecord` (fixed offsets in the 76-byte window, uart.c:69-90) to the window at header_len |
| `BestPos.HeaderRoundTrip` | uart.c:52-67 | every BestPosHeader, laid out byte by byte at its field offsets (sync 0-2, header_len 3, msg_id 4-5, msg_type 6, msg_len 8-9, quality 13, week 14-15, ms 16-19, ...), decodes back to itself |
| `BestPos.RecordRoundTrip` | uart.c:69-90 | every BestPosMsg, laid out at its field offsets (pos_type 4-7, lat/lon/hgt 8/16/24, lat_d/lon_d/hgt_d 40/44/48, crc 72-75, ...), decodes back to itself |
| `BestPos.RecordPositionFields` | uart.c:70-74 | in an encoded record, sol_status, pos_type and the lat/lon/hgt words read back from offsets 0, 4, 8, 16 and 24 |
| `BestPos.RecordDeviationFields` | uart.c:75-79 | in an encoded record, undulation, datum and the three deviation words read back from offsets 32 to 48 |
| `BestPos.RecordTrailingFields` | uart.c:80-89 | in an encoded record, stn_id, the ages, tra_count, sol_count, the reserved bytes, ext_sol_stat, galilen_mask, mask and crc read back from offsets 52 to 75 |
| `BestPos.FrameRoundTrip` | uart.c:108-113 | a buffer made of an encoded header with header_len >= 28, any filler up to header_len, an encoded record and any trailing bytes decodes to exactly that header and record |
| `BestPos.HeaderLocality` | uart.c:108 | two buffers that agree on bytes 0-27 have the same header |
| `BestPos.HeaderOfPrefix` | uart.c:52-67 | the header of a buffer is the header of its first 28 bytes |
| `BestPos.FieldInWindow` | uart.c:113 | a field read inside the record window at offset off is the field of the whole buffer at off plus its offset in the record |
| `BestPos.RecordFieldOffsets` | uart.c:113-115 | the printed record fields are the buffer bytes at header_len+4 (pos_type), +8/+16/+24 (lat, lon, hgt) and +40/+44/+48 (lat_d, lon_d, hgt_d), little-endian |
| `BestPos.FrameIgnoresOtherBytes` | uart.c:108-113 | changing a byte past the header and outside [header_len, header_len+76) leaves the decoded header and record unchanged |
| `BestPos.DecodeChecked` | uart.c:108-113 | strengthening: accepts exactly the buffers with the AA 44 12 marker and 28 <= header_len <= min(validLen, size) - 76, and then returns the client's own views; a wrong marker gives BadSync whatever follows, with the marker a record past validLen gives PayloadOutOfRange, and with the marker and the record inside validLen a header_len below 28 gives HeaderOutOfRange |
| `BestPos.CheckedReadsOnlyValidPrefix` | uart.c:108-113 | strengthening: the checked decoder's answer does not depend on any byte at or past validLen |
| `Command.PayloadAfterClosedForm` | uart.c:136-148 | `Command.PayloadAfter` (k applications of `Command.Step`, the increments at uart.c:145-148, to `Command.InitialPayload`, the payload built at uart.c:136-142) is in closed form: after k iterations the payload has seq = UART_MSG_TEST_SEQ + k and data[i] = i + k (each modulo its type's width), validLen = UART_DATA_VALID_LEN and UART_DATA_MAX_LEN elements |
| `Command.ReadyResultsBound` | uart.c:149-156 | `Command.ReadyResults`, the codes logged at uart.c:155-156, has no more result codes than sends; all-timeout runs receive no result and all-ready runs receive exactly the result of each reply, in order |
| `Uart.UartProxy.constructor` | uart.c:44 | a proxy built from a handle keeps that handle and starts with an empty cache, no receive handler and no subscription |
| `Uart.UartDataReceive.constructor` | uart.c:18-26 | the client starts with no proxy and no sender |
| `Uart.UartDataReceive.ServiceAvailabilityCallback` | uart.c:32-51 | keeps the invariant (sender running iff proxy bound, at most one proxy ever created, a bound proxy has its handler set and is subscribed newest-N with SUBSCRIBE_NUM); an empty handle list changes nothing; a bound proxy is never replaced; with no proxy and a non-empty list a fresh proxy is bound from handles[0]; the sender starts exactly when the proxy is created |
| `Uart.UartDataReceive.UartDataEventReceived` | uart.c:102-126 | one decoded frame per cached sample, in cache order, each equal to DecodeFrame of that sample's buffer; the cache is empty afterwards and the binding invariant still holds |
| `Uart.UartDataReceive.UartSetData` | uart.c:128-160 | with no proxy nothing is sent; otherwise one send per reply outcome, the j-th carrying the payload after j+1 increments whatever earlier replies were, and the received result codes are those of the Ready replies in order (`Command.ReadyResults`) |
| `Uart.IncrementEach` | uart.c:146-148 | every element of the data buffer goes up by one, wrapping at the element width, in place |
| `Uart.BindTwice` | uart.c:39-49 | two consecutive availability callbacks, the first non-empty, bind the proxy from the first list's first handle and create exactly one proxy |

## Left out

- Service discovery (`StartFindService`), proxy construction internals, `SetReceiveHandler` and `Subscribe`: these are runtime calls. The proxy is a handle plus flags recording that the handler was set and the subscription made.
- `Update()` and `GetCachedSamples()` (uart.c:104-105) and the newest-N eviction policy: these are transport internals. The cache is a sequence that the runtime fills. The drain reads that sequence as its snapshot.
- The mutex and the sender thread: these are concurrency. Binding is modelled sequentially, and starting the thread is a flag.
- `wait_for` and `sleep_for`: these are real-time behaviour. Each reply outcome is an input (`Ready(result)` or `Timeout`). The sleep after a ready reply has no effect on the modelled state.
- Uart.UartDataReceive.UartSetData: runs one iteration per supplied reply outcome instead of `while (1)`, so it states the first |replies| sends of an unbounded run.
- Uart.UartDataReceive.UartDataEventReceived: requires every cached buffer to hold the 28-byte header and the whole 76-byte record at header_len. The code checks neither and loads only the printed fields: header bytes 3-13 (uart.c:110-111) and record bytes header_len+4 to header_len+51 (uart.c:113-115). A shorter buffer makes it read out of bounds. A buffer of header_len+52 to header_len+75 bytes is read in bounds, but it has no model here, because the model decodes the whole record.
- The numeric meaning of lat/lon/hgt, undulation, the standard deviations and the ages: these are floating point. They stay raw 32/64-bit patterns.
- Alignment: a record at a `header_len` that is not a multiple of 8 gives misaligned double reads on the target. The model reads bytes and does not capture this.
- `printf` and logger output, including the `%ld` formatting of doubles and floats, the per-handle instance-id logging, and the commented-out logging at uart.c:118-122: these are I/O.
- `BestPosEvent` (uart.c:92-100) is declared but never used by the code.
- `uart.h` is not part of this model. `UART_DATA_MAX_LEN`, `UART_DATA_VALID_LEN`, `UART_MSG_TEST_SEQ`, the widths of `seq` and of a data element (taken as unsigned, wrapping at `seqModulus` and `dataModulus`) and `SUBSCRIBE_NUM` are parameters.
- The empty destructor and the unused `FindServiceHandle` argument of the callback: they have no behaviour.
