# Device drivers and tools of a handheld overlay, modelled in Dafny

Seven pieces of the repository, each modelled in the form its source has and
proved against what it is for. `dafny verify dfyconfig.toml` checks everything.

## What is modelled

**The msdisp USB display pipeline** (`Raster`, `Yuv`, `Damage`, `Cursor`,
`Packet`, `Display` are the meaning; `Scan`, `BlockWriter`, `CursorPaint`,
`FrameCopy`, `Transfer`, `UsbHalDev` the code that works in place; `Sending` and
`Session` tie the two together through the bytes on the bus).
The driver keeps a desktop image, a shadow of what was last compared, one
pending damage rectangle for each of the chip's two buffers, and an index that
follows the chip's. `UsbHalDev` holds these as arrays and fields; each of its
methods is tied to one step of the state machine in `Display`. What it sends is
on a `Transfer.Bus`, and `Session` gives any sequence of calls its meaning, in
terms of the calls alone: the device's state and every byte on the bus. The chip
is two frames and an index that advances with each block it received whole, as
usb_hal_thread.c:489-496 describes it; it is what the packets on the bus, parsed
one by one, make of it, and a packet that is no block leaves anything in its
current buffer. The main result is `Display.ScreenShowsDesktop`: an incremental,
double-buffered update always shows what a full one would. `Session.RefreshAndShow`
is the same of the device, through the bytes it sends: what is on the screen is a
function of the commands. `Yuv` measures the colour conversion against ITU-R
BT.601 in studio range, and `Session.ScreenIsFrame` follows a pixel from the
framebuffer's bytes to the screen.

**The sender's event machine** (`HalEvents`): the queue, the enabled state and
the commands that switch the output on, as a log of actions; `Picture` plays that
log on the display.

**The HUSB320 Type-C controller driver** (`Husb320`): every regulator,
role-switch, connector and register call may fail and then has no effect. What
the controller's registers hold and what each call returns are inputs. The
invariant is that of the driver's lock.

**The RK817 fuel gauge** (`Rk817`: voltage lookup, scaled division and capacity
registers with their C widths; `Smoothing`: the integrator behind the displayed
percentage and the end-of-charge clock).

**The dock's touch loop** (`TouchDock`): slots in, key and button writes out,
with the dictionaries as maps and the writes as a log. After any events the lines,
how often each was pressed and the modifier flags are functions of the events.

**EDID patching** (`Edid`), in 16- and 8-bit machine arithmetic, read back
according to VESA E-EDID Release A, Revision 2, section 3.10.2.

**Packed RAW10 decoding** (`Raw10`), after section 11.4.4 of MIPI CSI-2 v1.x.

## What the code turned out to do

- A failed transfer is never retried: the rectangle is cleared before sending
  (`Display.FailedSendIsDropped`), so a buffer is wrong until damage or the
  idle refresh covers it again (`Display.LostUntilRepaired` says which pairs).
  Agreement is therefore claimed from a full refresh on, along sends that did not
  fail.
- A transfer that reports an error although the chip took all of it leaves the
  driver's frame index behind the chip's (`Transfer.AckMayBeLost`,
  `Sending.IndexFollowsIff`); only the next enable reads it again.
- The output is switched on after one delivered rectangle, and full frames are
  asked for only then, so the first picture may hold whatever the chip did
  (`Picture.FirstPictureIff`); the second does not (`Picture.SecondPictureWhole`).
- The 12-bit alignment masks lose damage beyond column 4092 or row 4094
  (`Damage.GrowCoversIff`, `Damage.ColumnLost`); modes are limited accordingly.
- The cursor box may be one column and one row larger than needed
  (`CursorPaint.FindColumns`, `FindRows`); it is never too small.
- The vertical sync fields of a packed detailed timing are right only below 16
  (`Edid.VSyncReadsBackIff`, `Edid.PorchLost`); the standard gives them six bits.
- A capacity whose register form reaches the sign bit reads back negative
  (`Rk817.QmaxRoundTrip`, `Rk817.CapacityLost`).
- The smoothing integrator looks only at the size of a capacity change: at a
  charging slope 10 mAh lost raise the percentage
  (`Smoothing.LossRaisesPercentage`). The net law holds of a tick exactly when
  the change does not go against the slope, or is too small to count
  (`Smoothing.ChargeWithinNetIff`, `DischargeWithinNetIff`, and `ChargeNetIff`,
  `DischargeNetIff` over runs); for all runs the rise accounts for the capacity
  travelled, which is the net gain and twice the loss on the way
  (`Smoothing.RiseIsNetAndTwiceFallen`).
- Trimming the decoded RAW10 samples to the width never changes anything
  (`Raw10.TrimNeverCuts`): a row's complete groups are never wider than the row.
- A RAW10 width that is not a multiple of four loses the samples of the last,
  incomplete group of every row (`Raw10.WholeImageIff`, `Raw10.SamplesLost`).
- A key or button goes up when one of two fingers on it leaves, and the left button
  when a tap is made while it is held (`TouchDock.TwoFingersOneKey`, `InStepIff`,
  `TapInStepIff`); it is never left down without a finger on it.

## Model

| member | source | states |
|---|---|---|
| `Display.ScreenShowsDesktop` | overlay/drivers/gpu/drm/msdisp/usb_hal_thread.c:392-502 | from any driver state and any chip contents: after a full refresh and any run of frames, cursor changes and delivered or skipped sends, the next tick leaves the chip showing the conversion of the whole desktop with its cursor, although only blocks were sent |
| `Display.FullRefreshAgrees` | overlay/drivers/gpu/drm/msdisp/usb_hal_thread.c:373-382 | a full refresh makes both chip buffers agree with the shadow outside their pending rectangles, whatever they held |
| `Display.StepAgrees` | overlay/drivers/gpu/drm/msdisp/usb_hal_thread.c:265-502 | agreement of both buffers is kept by every step: frames, cursor changes, refreshes, delivered and failed sends (a buffer whose send failed is no longer claimed until the next full refresh) |
| `Display.RunAgrees` | overlay/drivers/gpu/drm/msdisp/usb_hal_thread.c:265-502 | agreement is kept over every run |
| `Display.TickShowsDesktop` | overlay/drivers/gpu/drm/msdisp/usb_hal_thread.c:392-502 | a tick that sends or skips leaves the frame on show equal to the conversion of the current desktop |
| `Display.TwoSendsRepairBoth` | overlay/drivers/gpu/drm/msdisp/usb_hal_thread.c:373-502 | two delivered ticks after a full refresh make both chip buffers the conversion of the current desktop |
| `Display.PendingTickSends` | overlay/drivers/gpu/drm/msdisp/usb_hal_thread.c:409-496 | a tick with damage pending for the current buffer sends, and makes that buffer the whole conversion |
| `Display.FailedSendIsDropped` | overlay/drivers/gpu/drm/msdisp/usb_hal_thread.c:417-472 | a failed transfer is not retried: the rectangle was already cleared, the buffer keeps what arrived and the next tick skips |
| `Display.AgreesIff` | overlay/drivers/gpu/drm/msdisp/usb_hal_thread.c:265-371 | a buffer agrees with the shadow exactly when none of its pairs is stale: wrong with nothing pending there |
| `Display.StaleStep` | overlay/drivers/gpu/drm/msdisp/usb_hal_thread.c:265-502 | exactly which pairs are stale after an operation: a failed send leaves those it left wrong, a full refresh none, another tick those that were and that the buffer's rectangle leaves out, anything else the same |
| `Display.StaleUntilRepaired` | overlay/drivers/gpu/drm/msdisp/usb_hal_thread.c:265-502 | over any run without a failure a pair is stale exactly when it was and no rectangle of the run covers it |
| `Display.LostUntilRepaired` | overlay/drivers/gpu/drm/msdisp/usb_hal_thread.c:417-502 | after a lost rectangle and any run without another failure exactly those pairs are still wrong and not pending that the failed transfer left wrong and nothing has covered since |
| `Display.DeliveredShownIff` | overlay/drivers/gpu/drm/msdisp/usb_hal_thread.c:409-496 | after a delivered send a pair of the screen is right exactly unless it was stale and outside the rectangle sent |
| `Display.DetectIsTight` | overlay/drivers/gpu/drm/msdisp/usb_hal_thread.c:265-371 | a tick adds to a pending rectangle the tight box of what changed since the last one, aligned, and nothing else; nothing when nothing changed |
| `Session.FrameAndPointer` | overlay/drivers/gpu/drm/msdisp/usb_hal_thread.c:71-161 | after any commands, whatever the wire did, the frame under the drawn cursor is the last accepted one and the cursor is where and what the commands say |
| `Session.LastFrameIs` | overlay/drivers/gpu/drm/msdisp/usb_hal_interface.c:567-632 | the frame after the commands is that of the last framebuffer taken |
| `Session.LastPlaceIs` | overlay/drivers/gpu/drm/msdisp/usb_hal_interface.c:768-795 | the cursor is where the last move put it, x to x and y to y |
| `Session.LastShapeIs` | overlay/drivers/gpu/drm/msdisp/usb_hal_interface.c:680-755 | its bitmap is the last one set, row by row, and it is shown exactly when it was not hidden since |
| `Session.RunIsModelRun` | overlay/drivers/gpu/drm/msdisp/usb_hal_thread.c:71-502 | any commands over any wires that lose no acknowledgement are a run of the model whose driver is the driver and whose chip is what all the bytes on the bus have made of it |
| `Session.CommandsShow` | overlay/drivers/gpu/drm/msdisp/usb_hal_thread.c:373-502 | after a full refresh, any commands whose sends go through and one more such send, the chip that received the bytes on the bus shows the conversion of the last accepted frame under the commanded cursor, whatever it held before |
| `Session.ScreenIsFrame` | overlay/drivers/gpu/drm/msdisp/usb_hal_thread.c:190-209 | from the screen down to the bytes: away from the cursor the luma of a pixel is within two steps of the standard's for the blue, green and red at its place in the framebuffer |
| `Session.Execute` | overlay/drivers/gpu/drm/msdisp/usb_hal_thread.c:392-502 | one command leaves the device as the command says, and on the bus one more packet, as far as the wire takes it, exactly when it is a send with damage pending |
| `Session.RunCommands` | overlay/drivers/gpu/drm/msdisp/usb_hal_thread.c:71-502 | for any sequence of frames, cursor changes, refreshes and sends over any wires the device and every byte on the bus are functions of the commands; undoing the drawn cursor gives the last accepted frame of the sequence |
| `Session.RefreshAndSend` | overlay/drivers/gpu/drm/msdisp/usb_hal_thread.c:373-502 | the bytes on the bus after a full refresh, any commands and a send are a function of the commands |
| `Session.RefreshAndShow` | overlay/drivers/gpu/drm/msdisp/usb_hal_thread.c:373-502 | on the device: if all sends go through, the chip, by the bytes it has received and nothing else, shows the last accepted frame under the commanded cursor |
| `UsbHalDev.UsbHalDev.constructor` | overlay/drivers/gpu/drm/msdisp/usb_hal_interface.c:856-901 | a device of one supported mode with zeroed buffers of the driver's sizes, no cursor shown and none saved |
| `UsbHalDev.UsbHalDev.UpdateFrame` | overlay/drivers/gpu/drm/msdisp/usb_hal_interface.c:567-632 | accepts exactly when enabled, lockable and the rows fit the framebuffer; then the desktop is the framebuffer's image for any pitch, otherwise nothing changes |
| `UsbHalDev.UsbHalDev.CursorSet` | overlay/drivers/gpu/drm/msdisp/usb_hal_interface.c:694-755 | stores the bitmap with a box that holds all its visible pixels and shows the cursor |
| `UsbHalDev.UsbHalDev.CursorHide` | overlay/drivers/gpu/drm/msdisp/usb_hal_interface.c:680-692 | hides the cursor and changes nothing else |
| `UsbHalDev.UsbHalDev.CursorMove` | overlay/drivers/gpu/drm/msdisp/usb_hal_interface.c:768-795 | moves the cursor to any signed position and changes nothing else |
| `UsbHalDev.UsbHalDev.EraseCursor` | overlay/drivers/gpu/drm/msdisp/usb_hal_thread.c:80-98 | the desktop becomes the frame under the old cursor |
| `UsbHalDev.UsbHalDev.PaintCursor` | overlay/drivers/gpu/drm/msdisp/usb_hal_thread.c:100-158 | the desktop becomes the frame with the whole bitmap blended over it, and undoing the saved region would give the frame back |
| `UsbHalDev.UsbHalDev.DrawCursor` | overlay/drivers/gpu/drm/msdisp/usb_hal_thread.c:71-161 | the desktop is the composition of the frame and the cursor, whatever cursor was drawn before |
| `UsbHalDev.UsbHalDev.RegionSmall` | overlay/drivers/gpu/drm/msdisp/usb_hal_thread.c:113-126 | a clipped cursor region fits the 64 by 64 pixel save area |
| `UsbHalDev.UsbHalDev.CombineRects` | overlay/drivers/gpu/drm/msdisp/usb_hal_thread.c:265-284 | both rectangles grow by the box |
| `UsbHalDev.UsbHalDev.UpdateChangeRects` | overlay/drivers/gpu/drm/msdisp/usb_hal_thread.c:286-371 | afterwards the shadow equals the desktop; both rectangles grow by the tight difference box, or nothing changes when the images were equal |
| `UsbHalDev.UsbHalDev.FullRects` | overlay/drivers/gpu/drm/msdisp/usb_hal_thread.c:373-382 | both rectangles become the whole frame |
| `UsbHalDev.UsbHalDev.ClearRect` | overlay/drivers/gpu/drm/msdisp/usb_hal_thread.c:384-390 | one rectangle becomes empty |
| `UsbHalDev.UsbHalDev.Refresh` | overlay/drivers/gpu/drm/msdisp/usb_hal_thread.c:405-408 | compose and detect: the state after is the model's |
| `UsbHalDev.UsbHalDev.PreparePacket` | overlay/drivers/gpu/drm/msdisp/usb_hal_thread.c:415-416 | the buffer holds exactly the packet of the current rectangle's slice of the converted desktop |
| `Sending.ReceivedPacket` | overlay/drivers/gpu/drm/msdisp/usb_hal_thread.c:420-496 | storing the packet of the pending rectangle is copying that rectangle of the converted desktop into the chip's buffer |
| `Sending.CompleteIff` | overlay/drivers/gpu/drm/msdisp/usb_hal_thread.c:420-458 | what reached the chip of a packet is a block exactly when all of it did |
| `Sending.TickIsStep` | overlay/drivers/gpu/drm/msdisp/usb_hal_thread.c:392-502 | unless an acknowledgement is lost, a tick takes the driver and, by the bytes that reached it, the chip one step of the model on |
| `Sending.IndexFollowsIff` | overlay/drivers/gpu/drm/msdisp/usb_hal_thread.c:489-496 | after a tick the driver's index is the chip's exactly when no acknowledgement was lost |
| `UsbHalDev.UsbHalDev.SendPending` | overlay/drivers/gpu/drm/msdisp/usb_hal_thread.c:415-496 | the bus gets one more packet, the current rectangle's slice of the converted desktop as far as the wire takes it; success exactly when the host saw it go through; the rectangle is cleared either way |
| `UsbHalDev.UsbHalDev.Advance` | overlay/drivers/gpu/drm/msdisp/usb_hal_thread.c:489-496 | the rectangle is cleared, and the frame index toggles exactly on delivery |
| `UsbHalDev.UsbHalDev.SendFrame` | overlay/drivers/gpu/drm/msdisp/usb_hal_thread.c:392-502 | one call composes, detects and, exactly when something is pending for the current buffer, puts that packet on the bus as far as the wire takes it; success exactly when it was delivered |
| `Scan.CompareLine` | overlay/drivers/gpu/drm/msdisp/usb_hal_thread.c:249-263 | true exactly when two pixels on the stepped line differ |
| `Scan.ScanRows` | overlay/drivers/gpu/drm/msdisp/usb_hal_thread.c:302-327 | the first and last differing rows, or none exactly when the images are equal |
| `Scan.FirstColumn` | overlay/drivers/gpu/drm/msdisp/usb_hal_thread.c:329-340 | the first column that differs between the rows |
| `Scan.LastColumn` | overlay/drivers/gpu/drm/msdisp/usb_hal_thread.c:342-352 | the last column that differs between the rows |
| `Scan.FindDamage` | overlay/drivers/gpu/drm/msdisp/usb_hal_thread.c:297-352 | the four scans find the unique tight bounding box of all differing pixels, and none exactly when there are none |
| `Scan.CopyRect` | overlay/drivers/gpu/drm/msdisp/usb_hal_thread.c:354-368 | the band copy and the row copies both patch exactly the box |
| `Damage.DiffBoxUnique` | overlay/drivers/gpu/drm/msdisp/usb_hal_thread.c:302-352 | a box that holds all differences and touches one with each edge is unique |
| `Damage.DiffBoxExists` | overlay/drivers/gpu/drm/msdisp/usb_hal_thread.c:302-352 | two different images have such a box |
| `Damage.GrowCoversIff` | overlay/drivers/gpu/drm/msdisp/usb_hal_thread.c:274-282 | merging and aligning with the 12-bit masks keeps all damage exactly when the right edge is at most 4092 and the bottom edge at most 4094 |
| `Damage.ColumnLost` | overlay/drivers/gpu/drm/msdisp/usb_hal_thread.c:274-282 | at a right edge of 4093 the grown rectangle loses the damage |
| `Damage.GrowOk` | overlay/drivers/gpu/drm/msdisp/usb_hal_thread.c:265-284 | in a supported mode the aligned rectangle covers old and new damage, stays inside the frame and has even left and right edges |
| `Damage.GrowTight` | overlay/drivers/gpu/drm/msdisp/usb_hal_thread.c:265-284 | nothing but alignment is added: each edge of the grown rectangle is within 3 columns or one row of the two it joins |
| `Damage.ClearedGrowsTight` | overlay/drivers/gpu/drm/msdisp/usb_hal_thread.c:265-284 | with nothing pending before, what is pending afterwards is the damage alone, so aligned |
| `Damage.GrowNested` | overlay/drivers/gpu/drm/msdisp/usb_hal_thread.c:265-284 | nested rectangles stay nested when grown by the same box |
| `Yuv.ClampNeverFires` | overlay/drivers/gpu/drm/msdisp/usb_hal_thread.c:190-204 | all samples lie in 15..240, so the clamp never changes one |
| `Yuv.LumaIsStandard` | overlay/drivers/gpu/drm/msdisp/usb_hal_thread.c:190-194 | for every pixel the luma is that of ITU-R BT.601 from red, green and blue, rounded down, and less than two steps below it |
| `Yuv.ChromaIsStandard` | overlay/drivers/gpu/drm/msdisp/usb_hal_thread.c:191-196 | so are both chroma values, within an eighth of a step above |
| `Yuv.PairIsStandard` | overlay/drivers/gpu/drm/msdisp/usb_hal_thread.c:190-209 | a pair has the standard's luma of its first and of its second pixel, in that order, and the mean of their chroma, each under its own name |
| `Yuv.FrameIsStandard` | overlay/drivers/gpu/drm/msdisp/usb_hal_thread.c:163-215 | every pair of a converted frame is the standard's for the two pixels it covers |
| `BlockWriter.WritePair` | overlay/drivers/gpu/drm/msdisp/usb_hal_thread.c:180-209 | two pixels become the four bytes of their pair in order, which Yuv.PairIsStandard ties to the standard; no other byte changes |
| `BlockWriter.ConvertRow` | overlay/drivers/gpu/drm/msdisp/usb_hal_thread.c:178-210 | a row of pixels becomes its row of pairs |
| `BlockWriter.ImageToYuv` | overlay/drivers/gpu/drm/msdisp/usb_hal_thread.c:163-215 | the payload is the rectangle's slice of the whole-frame conversion, which is the standard's pixel by pixel (Yuv.FrameIsStandard), and the length is exact |
| `BlockWriter.PackageBlock` | overlay/drivers/gpu/drm/msdisp/usb_hal_thread.c:217-247 | header and trailer are written around the payload, which is untouched |
| `BlockWriter.BuildPacket` | overlay/drivers/gpu/drm/msdisp/usb_hal_thread.c:163-247 | the buffer's first `len` bytes are exactly header, slice of the converted frame and trailer |
| `Packet.HeaderFieldsIff` | overlay/drivers/gpu/drm/msdisp/usb_hal_thread.c:223-235 | the header fields read back exactly when all four are below 4096 |
| `Packet.FromToBytes` | overlay/drivers/gpu/drm/msdisp/usb_hal_thread.c:206-209 | pairs survive the trip through bytes |
| `Packet.HeaderOnWire` | overlay/drivers/gpu/drm/msdisp/usb_hal_thread.c:228-235 | the eight header bytes: the mark 0xFF 0x00, then column over row and width over height as two 24-bit words, most significant byte first |
| `Packet.PayloadOnWire` | overlay/drivers/gpu/drm/msdisp/usb_hal_thread.c:206-209 | pair k of row r lies in the four bytes from 8 + 4·(pairs per row · r + k) on: U, Y of the even pixel, V, Y of the odd one |
| `Packet.TrailerOnWire` | overlay/drivers/gpu/drm/msdisp/usb_hal_thread.c:237-246 | the last eight bytes are 0xFF, 0xC0 and zeros |
| `Packet.ParseEncode` | overlay/drivers/gpu/drm/msdisp/usb_hal_thread.c:217-247 | header, payload and trailer tile the packet; reading it gives the rectangle and the slice back |
| `Packet.PrefixDoesNotParse` | overlay/drivers/gpu/drm/msdisp/usb_hal_thread.c:217-247 | nothing short of the whole packet reads as a block |
| `Packet.ReceiveIsPatch` | overlay/drivers/gpu/drm/msdisp/usb_hal_thread.c:217-247 | receiving a packet copies exactly that rectangle of the converted frame into the chip's frame |
| `Transfer.Bus.Submit` | overlay/drivers/gpu/drm/msdisp/usb_hal_thread.c:436-440 | one URB of at most 64 KB: what it moved is appended to what reached the chip |
| `Transfer.Bus.EndTransfer` | overlay/drivers/gpu/drm/msdisp/usb_hal_thread.c:478-481 | the zero-length message ends a packet |
| `Transfer.SendChunks` | overlay/drivers/gpu/drm/msdisp/usb_hal_thread.c:421-481 | succeeds exactly when every URB comes back whole; one packet more is on the bus, the buffer's bytes up to where the first failing URB stopped |
| `Transfer.DeliveredIff` | overlay/drivers/gpu/drm/msdisp/usb_hal_thread.c:427-468 | a packet goes through exactly when each of its 64 KB pieces, the last one shorter, comes back without error and with its own length |
| `Transfer.ReachStops` | overlay/drivers/gpu/drm/msdisp/usb_hal_thread.c:440-462 | otherwise the pieces before the first failing one reach the chip, and of that one what the wire let through |
| `Transfer.AckMayBeLost` | overlay/drivers/gpu/drm/msdisp/usb_hal_thread.c:45-69 | an error on a transfer the chip took whole: the host takes it for lost |
| `Cursor.CroppingIsLossless` | overlay/drivers/gpu/drm/msdisp/usb_hal_thread.c:100-155 | blending only the clipped box gives the same desktop as blending the whole bitmap |
| `Cursor.OffScreenKeeps` | overlay/drivers/gpu/drm/msdisp/usb_hal_thread.c:113-115 | a box that misses the screen would have changed nothing |
| `Cursor.CompositePixel` | overlay/drivers/gpu/drm/msdisp/usb_hal_thread.c:100-158 | a shown cursor changes the 64 by 64 pixels from its place on, as far as they are on the screen, by its own pixel there, and nothing else |
| `Cursor.BlendShares` | overlay/drivers/gpu/drm/msdisp/usb_hal_thread.c:127-140 | by alpha band every channel is none, a quarter, three quarters or all of the desktop's and the rest of the cursor's, at most two steps too dark; alpha stays the desktop's |
| `Cursor.VisibleIff` | overlay/drivers/gpu/drm/msdisp/usb_hal_interface.c:645-657 | a cursor pixel counts as visible exactly when there is a desktop pixel it would change |
| `Cursor.RestoreUndoes` | overlay/drivers/gpu/drm/msdisp/usb_hal_thread.c:80-98 | putting the saved pixels back undoes any drawing inside the region |
| `CursorPaint.RestoreRegion` | overlay/drivers/gpu/drm/msdisp/usb_hal_thread.c:83-97 | the row copies put the saved region back and touch nothing else |
| `CursorPaint.BlendRow` | overlay/drivers/gpu/drm/msdisp/usb_hal_thread.c:127-143 | every pixel of the run is blended by its alpha band; bytes never overflow |
| `CursorPaint.DrawRegion` | overlay/drivers/gpu/drm/msdisp/usb_hal_thread.c:116-148 | the region of the desktop becomes the overlay and the save area the pixels under it |
| `CursorPaint.ClipBox` | overlay/drivers/gpu/drm/msdisp/usb_hal_thread.c:103-114 | the moved box clipped to the screen, or nothing exactly when no screen pixel lies under it |
| `CursorPaint.FindVisible` | overlay/drivers/gpu/drm/msdisp/usb_hal_interface.c:645-657 | true exactly when a pixel on the stepped line has alpha at least 64 |
| `CursorPaint.FindColumns` | overlay/drivers/gpu/drm/msdisp/usb_hal_interface.c:696-714 | columns that hold every visible pixel; the left one is tight, the right one at most one column wide of it |
| `CursorPaint.FindRows` | overlay/drivers/gpu/drm/msdisp/usb_hal_interface.c:723-741 | rows that hold every visible pixel between the columns, as tight as the columns |
| `CursorPaint.FindBox` | overlay/drivers/gpu/drm/msdisp/usb_hal_interface.c:696-754 | the box contains every pixel with alpha at least 64, is never empty, and is tight on the left and top |
| `FrameCopy.FitsByProduct` | overlay/drivers/gpu/drm/msdisp/usb_hal_interface.c:602-605 | the guard on pitch and length, with its product, says exactly that the rows of the mode fit the framebuffer |
| `FrameCopy.FrameInside` | overlay/drivers/gpu/drm/msdisp/usb_hal_interface.c:602-605 | every row of an accepted framebuffer lies inside `len` |
| `FrameCopy.FrameBytes` | overlay/drivers/gpu/drm/msdisp/usb_hal_interface.c:613-622 | row r, column c of the image is blue, green, red and alpha from the four bytes at pitch·r + 4·c |
| `FrameCopy.CopyPacked` | overlay/drivers/gpu/drm/msdisp/usb_hal_interface.c:613-614 | the single copy stores the framebuffer's image |
| `FrameCopy.CopyPadded` | overlay/drivers/gpu/drm/msdisp/usb_hal_interface.c:615-622 | the row copies store the framebuffer's image for any pitch, the same as the single copy when rows are packed |
| `FrameCopy.CopyFrame` | overlay/drivers/gpu/drm/msdisp/usb_hal_interface.c:613-622 | either way the desktop becomes the framebuffer's image |
| `HalEvents.SendsOnlyWhenStarted` | overlay/drivers/gpu/drm/msdisp/usb_hal_thread.c:644-682 | in a legal log every send attempt follows a device start with no stop in between |
| `HalEvents.OutputOnlyAfterDelivery` | overlay/drivers/gpu/drm/msdisp/usb_hal_thread.c:554-571 | video and screen are switched on only after a frame was delivered since that start |
| `HalEvents.OutputOncePerStart` | overlay/drivers/gpu/drm/msdisp/usb_hal_thread.c:559-571 | between two commands that switch the same output on, the device was started anew |
| `HalEvents.LastCommandWins` | overlay/drivers/gpu/drm/msdisp/usb_hal_thread.c:645-664 | after the drain the device is enabled exactly when the last enable or disable says so |
| `HalEvents.StateMachine.DoEnable` | overlay/drivers/gpu/drm/msdisp/usb_hal_thread.c:504-528 | starting the device takes over the chip's frame index, or index 0 when it cannot be read, and resets the first-delivery flag |
| `HalEvents.StartTakesIndex` | overlay/drivers/gpu/drm/msdisp/usb_hal_thread.c:504-528 | a start of a stopped device takes over the index read, or 0 when it cannot be read, and the log says which |
| `HalEvents.IndexCounts` | overlay/drivers/gpu/drm/msdisp/usb_hal_thread.c:489-528 | from any start on the index is the one taken over plus the deliveries since, modulo two |
| `HalEvents.StateMachine.DoDisable` | overlay/drivers/gpu/drm/msdisp/usb_hal_thread.c:530-543 | stopping the device |
| `HalEvents.StateMachine.DoUpdate` | overlay/drivers/gpu/drm/msdisp/usb_hal_thread.c:545-578 | one send attempt; the index follows a delivery, and the session's first delivery, and only it, switches the outputs on and asks for full frames |
| `HalEvents.StateMachine.WantsUpdate` | overlay/drivers/gpu/drm/msdisp/usb_hal_thread.c:665-677 | a send is due after a consumed update, a moved mouse or a long pause; the mouse flag is used up and full frames are asked for as the log laws HalEvents.PassSendsIff, PassAsksIff and PassClears say |
| `HalEvents.StateMachine.Consume` | overlay/drivers/gpu/drm/msdisp/usb_hal_thread.c:646-662 | a stopped device reacts to enable only, a started one to disable and update |
| `HalEvents.StateMachine.Drain` | overlay/drivers/gpu/drm/msdisp/usb_hal_thread.c:645-662 | the whole queue is consumed oldest first; an update counts exactly when it is consumed while enabled; the history is kept and extended |
| `HalEvents.AttemptedGood` | overlay/drivers/gpu/drm/msdisp/usb_hal_thread.c:545-578 | a send attempt in the enabled state keeps the history legal, adds to it and counts as one |
| `HalEvents.PassedGood` | overlay/drivers/gpu/drm/msdisp/usb_hal_thread.c:609-683 | a pass keeps the whole history, extends it legally, keeps the frame index that of the log, and makes at most one attempt |
| `HalEvents.PassSendsIff` | overlay/drivers/gpu/drm/msdisp/usb_hal_thread.c:640-680 | a pass adds exactly one send attempt when the bus is up, the device is enabled after the drain and an update was consumed, the mouse has moved or the pause is long enough, and none otherwise |
| `HalEvents.UpdateIsSent` | overlay/drivers/gpu/drm/msdisp/usb_hal_thread.c:656-680 | a new frame is never left in the queue: an enabled, running device with an update and no disable queued sends |
| `HalEvents.PassAsksIff` | overlay/drivers/gpu/drm/msdisp/usb_hal_thread.c:554-572 | full frames are asked for exactly when the pause alone decides, and once more at a session's first delivery |
| `HalEvents.PassClears` | overlay/drivers/gpu/drm/msdisp/usb_hal_thread.c:665-680 | the mouse flag is used up exactly when the device may send and no update makes it unnecessary, and the clock is set to the end of the transfer exactly when there was one |
| `HalEvents.BetweenPasses` | overlay/drivers/gpu/drm/msdisp/usb_hal_thread.c:632-666 | a pass finds every event pushed since the last one, oldest first, the mouse flag if the mouse has moved at all, and the bus as last reported |
| `HalEvents.StateMachine.Pass` | overlay/drivers/gpu/drm/msdisp/usb_hal_thread.c:609-683 | the pass is that of the model: history kept and extended, nothing at all while suspended; HalEvents.PassSendsIff says on the log when it sends |
| `HalEvents.RunAdvances` | overlay/drivers/gpu/drm/msdisp/usb_hal_thread.c:609-683 | over every run the history only grows, stays legal and gains exactly one send attempt per pass that has one to make |
| `HalEvents.Serve` | overlay/drivers/gpu/drm/msdisp/usb_hal_thread.c:609-683 | for any interleaving of events, mouse moves, suspends and passes the machine and its whole history are those of the inputs, with as many attempts as passes that had one to make |
| `Picture.CleanIsSound` | overlay/drivers/gpu/drm/msdisp/usb_hal_thread.c:373-578 | over any actions of the sender, with any frames and cursor changes between and whatever the chip holds at a start: once full frames were asked for and no send failed since, both chip buffers agree |
| `Picture.SecondPictureWhole` | overlay/drivers/gpu/drm/msdisp/usb_hal_thread.c:545-578 | from the second picture of a session on: after a first delivery, with no failure since full frames were last asked for, the next attempt that does not fail leaves the whole desktop on the screen |
| `Picture.FirstPictureIff` | overlay/drivers/gpu/drm/msdisp/usb_hal_thread.c:554-572 | the picture the output is switched on with is the whole desktop exactly when outside the one rectangle delivered the chip's buffer happened to hold it |
| `Husb320.ExpectedIsConsistent` | overlay/drivers/usb/typec/husb320.c:312-388 | host and device roles respect the port, and no partner means everything off; VBUS only with the source bit and no higher-priority bit |
| `Husb320.SinkExpected` | overlay/drivers/usb/typec/husb320.c:312-388 | attached with type bit 4 and none above: a partner without accessory, USB mode, no VBUS, device role unless the port is host only, the sink's current from status bits 1 and 2 |
| `Husb320.SourceExpected` | overlay/drivers/usb/typec/husb320.c:312-388 | type bit 3 and none above: VBUS, host role unless the port is device only, the source's own current |
| `Husb320.DebugExpected` | overlay/drivers/usb/typec/husb320.c:312-388 | type bits 6 and 5: a debug accessory without VBUS, supplying or supplied |
| `Husb320.AudioExpected` | overlay/drivers/usb/typec/husb320.c:312-388 | type bit 1 or 0 and none of 3 to 6: an audio accessory without VBUS or USB role |
| `Husb320.EmptyExpectedIff` | overlay/drivers/usb/typec/husb320.c:479-497 | no partner, and then everything off, exactly when nothing is attached or no type bit is set |
| `Husb320.OrientationExpected` | overlay/drivers/usb/typec/husb320.c:467-477 | with a partner the orientation is normal or reverse exactly as status bits 4 and 5 say 1 or 2 |
| `Husb320.ServedBits` | overlay/drivers/usb/typec/husb320.c:81-93 | the interrupts served, bit by bit |
| `Husb320.DefaultRoles` | overlay/drivers/usb/typec/husb320.c:135-176 | an empty port is a source exactly when it can be nothing else or is dual-role and asked to be, and its data role follows |
| `Husb320.VbusOnlyForSource` | overlay/drivers/usb/typec/husb320.c:424-427 | at a release of the lock VBUS is on only in a valid source state or while shutting down |
| `Husb320.ShutdownIsFinal` | overlay/drivers/usb/typec/husb320.c:284-310 | from the first release with the latch set, over every run: it stays set, the regulator is never enabled and VBUS can only go down |
| `Husb320.DisablesGrow` | overlay/drivers/usb/typec/husb320.c:178-195 | the counted regulator disables never fall over a run |
| `Husb320.Port.SetVbus` | overlay/drivers/usb/typec/husb320.c:178-195 | regulator enables minus disables moves with `vbus_on`, and a failing call changes nothing |
| `Husb320.Port.SetMode` | overlay/drivers/usb/typec/husb320.c:197-212 | the connector mode is cached only once the call worked |
| `Husb320.Port.SetUnattachedRoles` | overlay/drivers/usb/typec/husb320.c:135-176 | power role, current and, with data, the data role reported for an empty port |
| `Husb320.Port.RegisterPartner` | overlay/drivers/usb/typec/husb320.c:223-243 | a failing registration leaves no partner behind |
| `Husb320.Port.CutOutputs` | overlay/drivers/usb/typec/husb320.c:245-264 | VBUS, data role and connector mode each go off if their own call works, whatever became of the others; VBUS is never enabled |
| `Husb320.Port.Detach` | overlay/drivers/usb/typec/husb320.c:266-280 | the partner is gone and the state is valid exactly when every step worked |
| `Husb320.Port.Disconnect` | overlay/drivers/usb/typec/husb320.c:245-280 | after success everything shown is off; after any failure each output whose own call worked is off all the same, the books stay right and the state is not valid |
| `Husb320.Port.HwDisable` | overlay/drivers/usb/typec/husb320.c:777-794 | interrupts are masked and detection stopped, each if its own write works; success exactly when both do |
| `Husb320.Port.ErrorRecovery` | overlay/drivers/usb/typec/husb320.c:284-310 | the lock's invariant holds afterwards, from any state with right books: detached and valid, or shutting down |
| `Husb320.Port.EnterPower` | overlay/drivers/usb/typec/husb320.c:418-427 | orientation, then VBUS for a source alone |
| `Husb320.Port.EnterData` | overlay/drivers/usb/typec/husb320.c:429-438 | the data role, then the connector mode |
| `Husb320.Port.EnterState` | overlay/drivers/usb/typec/husb320.c:440-464 | roles, current and data role are reported, a host or device role under its own name, and the state is entered only with a partner of its kind |
| `Husb320.Port.Attach` | overlay/drivers/usb/typec/husb320.c:418-464 | after success every output is that of the state; after a failure the books are still right |
| `Husb320.Port.ApplyState` | overlay/drivers/usb/typec/husb320.c:390-465 | the same from any consistent port |
| `Husb320.Port.UpdateState` | overlay/drivers/usb/typec/husb320.c:499-525 | for given register contents and call outcomes: after success, which is certain when every call works, VBUS, data role, mode, orientation and partner are the function of those two registers and the wiring that SinkExpected to OrientationExpected spell out, whatever came before, and a role in use is the one reported |
| `Husb320.Port.Probe` | overlay/drivers/usb/typec/husb320.c:1052-1090 | the lock's invariant is established: after success what is shown is what the registers call for and interrupts are on; after a failure the driver is shut down and detached |
| `Husb320.Port.Acknowledge` | overlay/drivers/usb/typec/husb320.c:542-569 | both interrupt registers are read, and written back exactly where there are bits to serve |
| `Husb320.Port.GiveUp` | overlay/drivers/usb/typec/husb320.c:590-603 | shutting down, interrupt masked, invariant restored |
| `Husb320.Port.Refresh` | overlay/drivers/usb/typec/husb320.c:571-584 | on success the outputs these registers call for, with VBUS switched off and on anew if a detach came in between; on failure detached and valid, or shutting down |
| `Husb320.Port.IrqThread` | overlay/drivers/usb/typec/husb320.c:527-604 | a served interrupt leaves the outputs its registers call for when its calls work, and otherwise those or nothing or a shutdown; a detach in between cycles VBUS even if the same source is found again; a foreign one or one after the latch changes nothing shown |
| `Husb320.Port.PortTypeSet` | overlay/drivers/usb/typec/husb320.c:632-671 | keeps the invariant, never enables VBUS, changes the type exactly after a clean disconnect and a successful write, and refuses while shutting down |
| `Husb320.Port.TryRoleSet` | overlay/drivers/usb/typec/husb320.c:673-697 | the preference is taken over exactly when the call succeeded, and never while shutting down |
| `Husb320.Port.BeginShutdown` | overlay/drivers/usb/typec/husb320.c:1097-1102 | sets the latch and nothing else |
| `Husb320.Port.Remove` | overlay/drivers/usb/typec/husb320.c:1108-1115 | detached afterwards, everything off unless a step failed |
| `Husb320.Port.SetSinkMode` | overlay/drivers/usb/typec/husb320.c:796-817 | success exactly when all three writes work, and then the controller is a running, masked sink |
| `Husb320.Port.Shutdown` | overlay/drivers/usb/typec/husb320.c:1138-1155 | detached afterwards; a port that can sink and disconnected cleanly is left running as a plain sink, any other is told to stop |
| `Husb320.Port.Serve` | overlay/drivers/usb/typec/husb320.c:527-697 | any events in any order, any call failing: each has its stated effect, and at every release of the lock its invariant, the VBUS rule and the finality of a shutdown hold |
| `Rk817.Interpolate` | overlay/drivers/power/supply/rk817_battery.c:651-676 | the scan computes the lookup with the source's 32- and 16-bit truncations, for any table below 256 entries |
| `Rk817.PointsInBand` | overlay/drivers/power/supply/rk817_battery.c:664-675 | on a rising 21-point table with gaps up to 1310 mV nothing is truncated, and each gap gives its own band of 50 points |
| `Rk817.InterpolateMonotone` | overlay/drivers/power/supply/rk817_battery.c:651-676 | the lookup never falls as the voltage rises, and stays in 0..1000 |
| `Rk817.InterpolateHits` | overlay/drivers/power/supply/rk817_battery.c:651-676 | it gives exactly 50·k at entry k |
| `Rk817.AbDivIsRounded` | overlay/drivers/power/supply/rk817_battery.c:678-698 | without wrap-around the scaled division is the rounded quotient, capped at 32767 |
| `Rk817.AbDivZero` | overlay/drivers/power/supply/rk817_battery.c:678-698 | a zero divisor gives 32767 for factors below the sign bit |
| `Rk817.AbDivNegative` | overlay/drivers/power/supply/rk817_battery.c:678-698 | a divisor above the sign bit, read as negative, gives the negated rounded quotient, capped at 32767 |
| `Rk817.VolToSocMonotone` | overlay/drivers/power/supply/rk817_battery.c:1298-1310 | the percentage rises with the voltage from 0 at the first entry to 100 at the last |
| `Rk817.VolToCapMonotone` | overlay/drivers/power/supply/rk817_battery.c:1312-1324 | the capacity rises with the voltage within 0..fcc, reaching fcc capped at 32767 |
| `Rk817.VolToSocIsTenth` | overlay/drivers/power/supply/rk817_battery.c:1298-1310 | the percentage is a tenth of the points, to the nearest |
| `Rk817.VolToCapIsShare` | overlay/drivers/power/supply/rk817_battery.c:1312-1324 | the capacity is the points' share of the full one, to the nearest, while that fits 15 bits |
| `Rk817.FullIsFullIff` | overlay/drivers/power/supply/rk817_battery.c:1312-1324 | a full battery reads back its full capacity exactly when that is at most 32767 |
| `Rk817.QmaxRegisters.UpdateQmax` | overlay/drivers/power/supply/rk817_battery.c:1214-1230 | the four registers together hold the capacity's 32-bit form |
| `Rk817.QmaxRegisters.GetQmax` | overlay/drivers/power/supply/rk817_battery.c:1232-1244 | reads the joined registers as a signed value |
| `Rk817.AdcForm` | overlay/drivers/power/supply/rk817_battery.c:81-82 | the register form overflows nothing and stays below the sign bit exactly up to 102602 scaled units |
| `Rk817.QmaxRoundTrip` | overlay/drivers/power/supply/rk817_battery.c:79-82 | for both divisors and every capacity: writing and reading back gives the capacity when 172 divides the scaled value and one less otherwise exactly up to 102602 scaled units; beyond, less comes back, nothing positive up to 205204 |
| `Rk817.QmaxRoundTripOnBoards` | overlay/drivers/power/supply/rk817_battery.c:1214-1244 | so it holds for both divisors and every capacity up to 51301 mAh |
| `Rk817.CapacityLost` | overlay/drivers/power/supply/rk817_battery.c:1214-1244 | 51302 mAh at divisor 2 read back as nothing or less |
| `Smoothing.Slopes` | overlay/drivers/power/supply/rk817_battery.c:1534-1551 | the slopes are the constants 4/3 and 3/4, whatever the distance |
| `Smoothing.SlopeByLag` | overlay/drivers/power/supply/rk817_battery.c:1528-1560 | the slope has the current's sign, is steeper than one exactly when the display lags behind the current's direction and flatter exactly when it leads |
| `Smoothing.Gauge.CalcSmLinek` | overlay/drivers/power/supply/rk817_battery.c:1528-1560 | the slope by current direction and lag, and the account restarts at the current capacity |
| `Smoothing.Gauge.SmoothAlgoPrepare` | overlay/drivers/power/supply/rk817_battery.c:1562-1569 | the integrator restarts at the displayed percentage |
| `Smoothing.Gauge.CalcSmoothDischrg` | overlay/drivers/power/supply/rk817_battery.c:2385-2407 | the falling half of a tick, whose display Smoothing.DischargeShows determines |
| `Smoothing.Gauge.CalcSmoothChrg` | overlay/drivers/power/supply/rk817_battery.c:2470-2483 | the rising half of a tick, and whether it runs to its end |
| `Smoothing.Gauge.Integrate` | overlay/drivers/power/supply/rk817_battery.c:2437-2488 | one tick of the integrator, and the slope taken anew after a resume exactly when the tick completes |
| `Smoothing.Gauge.SmoothAlgorithm` | overlay/drivers/power/supply/rk817_battery.c:2409-2494 | one call is one tick, at a new slope when the old one disagrees with the current |
| `Smoothing.ChargeTick` | overlay/drivers/power/supply/rk817_battery.c:2437-2466 | a charging tick accounts for the capacity up to one rounding slack, and what it does not account for stays below one |
| `Smoothing.ChargeConserved` | overlay/drivers/power/supply/rk817_battery.c:2409-2494 | over any charging run 10·fcc·rise is at most k times the capacity travelled and short of it by at most one slack per applied tick; the display never falls |
| `Smoothing.NothingDropped` | overlay/drivers/power/supply/rk817_battery.c:2443-2466 | with rising readings the rise accounts for the whole charge taken in, up to one more slack for what is being carried |
| `Smoothing.DisplayTrails` | overlay/drivers/power/supply/rk817_battery.c:2470-2483 | the display shows the smoothed percent, or is still ahead and waits |
| `Smoothing.DischargeTick` | overlay/drivers/power/supply/rk817_battery.c:2385-2407 | a discharging tick never raises the display, lowers it by at most 1000 and not below zero |
| `Smoothing.DischargeShows` | overlay/drivers/power/supply/rk817_battery.c:2385-2407 | a discharging tick: the display is untouched in the same whole percent or when it is behind already, otherwise it follows to the smoothed percent or, from further away, by exactly one percent |
| `Smoothing.DisplayFollows` | overlay/drivers/power/supply/rk817_battery.c:2385-2407 | over any discharging run the display never falls below both where it started and the smoothed percent, falls exactly one percent with every tick that counts until it is within a percent of it, and so gets there |
| `Smoothing.ChargeShows` | overlay/drivers/power/supply/rk817_battery.c:2470-2483 | a charging tick: the display takes over the smoothed percent exactly when that reaches another whole percent and is not below it |
| `Smoothing.RiseIsNetAndTwiceFallen` | overlay/drivers/power/supply/rk817_battery.c:2443-2466 | over any charging run the rise accounts for the net capacity gained plus twice the capacity lost on the way, up to one slack per applied tick |
| `Smoothing.DischargeConserved` | overlay/drivers/power/supply/rk817_battery.c:2385-2468 | over any discharging run no rise, no jump, and no more lost than the capacity travelled |
| `Smoothing.DirectionIgnored` | overlay/drivers/power/supply/rk817_battery.c:2448-2466 | a loss and a gain of the same size change the percentage alike |
| `Smoothing.LossRaisesPercentage` | overlay/drivers/power/supply/rk817_battery.c:2443-2466 | 10 mAh lost at a charging slope raise the percentage by a quarter of a percent, so the rise is not bounded by the net charge |
| `Smoothing.ChargeWithinNetIff` | overlay/drivers/power/supply/rk817_battery.c:2443-2466 | a charging tick's rise is bounded by the net capacity gained exactly when the reading has not fallen, or by too little to count |
| `Smoothing.DischargeWithinNetIff` | overlay/drivers/power/supply/rk817_battery.c:2385-2466 | a discharging tick's loss is bounded by the net capacity used exactly when the reading has not risen, or by too little to count |
| `Smoothing.ChargeNetIff` | overlay/drivers/power/supply/rk817_battery.c:2409-2494 | over any charging run every tick stays within the net exactly when none counts a loss, and then so does the whole run |
| `Smoothing.DischargeNetIff` | overlay/drivers/power/supply/rk817_battery.c:2385-2468 | over any discharging run every tick's loss stays within the capacity used exactly when none counts a gain, and then so does the whole run |
| `Smoothing.Gauge.FinishDsoc` | overlay/drivers/power/supply/rk817_battery.c:2778-2806 | at the end of a charge whole percents are displayed and exactly their time is taken off the clock |
| `Smoothing.StepTakes` | overlay/drivers/power/supply/rk817_battery.c:2778-2806 | a percent takes the time the finish current needs for a hundredth of the full capacity: 1, 1.5 or 6 A as the display is up to 20, up to 40 or more percent behind, so never longer the further behind |
| `TouchDock.HitIsFirst` | overlay/tablet-dock-pad.py:683-687 | nothing is hit exactly when no box contains the point, otherwise the first that does; TouchDock.LandingIsFirst says which point that is |
| `TouchDock.FindHitbox` | overlay/tablet-dock-pad.py:683-687 | the loop finds the target of the first box that contains the point |
| `TouchDock.LandingIsFirst` | overlay/tablet-dock-pad.py:612-626 | a finger lands on the first box whose x range holds its raw y and whose y range holds 800 less its raw x, and on nothing exactly when there is none or a coordinate is missing |
| `TouchDock.LandsOnBoxIff` | overlay/tablet-dock-pad.py:683-687 | one box, coordinate by coordinate, edges included |
| `TouchDock.DownIff` | overlay/tablet-dock-pad.py:574 | a slot is down from tracking id 0 on |
| `TouchDock.NearIsDistance` | overlay/tablet-dock-pad.py:590-604 | near means less than the bound away on a circle |
| `TouchDock.FewAreSeen` | overlay/tablet-dock-pad.py:574-613 | four fingers are ignored; of up to three each is seen exactly when it is down with both coordinates known |
| `TouchDock.ReportedEntry` | overlay/tablet-dock-pad.py:581-638 | a finger keeps what it holds while it is down, takes what it lands on when it is new, and loses it when it lifts |
| `TouchDock.LastForSlot` | overlay/tablet-dock-pad.py:562-571 | after any events a slot's tracking id and coordinates are the last ones sent while it was the current slot, x under x and y under y |
| `TouchDock.ModifierSticks` | overlay/tablet-dock-pad.py:708-764 | over any events a modifier stays as it is as long as no finger leaves a plain key and none lands on it |
| `TouchDock.KeyEndsModifiers` | overlay/tablet-dock-pad.py:738-764 | a report in which a finger leaves a plain key leaves on only the modifiers a new finger lands on |
| `TouchDock.NothingHeldAllUp` | overlay/tablet-dock-pad.py:581-607 | with nothing held every key and button was last written up, and released as often as pressed |
| `TouchDock.Dock.TapClick` | overlay/tablet-dock-pad.py:689-694 | one press and one release: no balance changes and the button is left up |
| `TouchDock.InStepIff` | overlay/tablet-dock-pad.py:581-634 | a key or button that is down exactly while a slot holds it gets out of step in a report exactly when a finger leaves it, none lands on it and another still holds it |
| `TouchDock.TwoFingersOneKey` | overlay/tablet-dock-pad.py:581-634 | two fingers on one key, the second lifted: the key is up although the first holds it |
| `TouchDock.TapInStepIff` | overlay/tablet-dock-pad.py:600-605 | a tap leaves the left button in step exactly when no other finger holds it |
| `TouchDock.Dock.PressModifier` | overlay/tablet-dock-pad.py:708-731 | exactly one flag toggles, and the flags stay what the devices were last told |
| `TouchDock.CapsClick` | overlay/tablet-dock-pad.py:722-727 | a click of Caps leaves its line up and toggles its flag alone |
| `TouchDock.FlagWrite` | overlay/tablet-dock-pad.py:708-721 | writing a modifier's line keeps every flag what its device was last told |
| `TouchDock.Dock.PressCaps` | overlay/tablet-dock-pad.py:722-727 | the Caps key is clicked and its flag counts clicks modulo two |
| `TouchDock.Dock.LetGo` | overlay/tablet-dock-pad.py:747-764 | one sticky modifier that is down is let go and its device told; one that is up is left alone |
| `TouchDock.Dock.ReleaseModifiers` | overlay/tablet-dock-pad.py:747-764 | all four sticky modifiers are let go and the devices told, Caps is not |
| `TouchDock.Dock.PressKey` | overlay/tablet-dock-pad.py:708-736 | a plain key goes down once and no flag changes; a modifier toggles its own flag and no other |
| `TouchDock.Dock.ReleaseKey` | overlay/tablet-dock-pad.py:738-764 | a plain key goes up once and takes the sticky modifiers with it; a modifier's own release does nothing |
| `TouchDock.Dock.Press` | overlay/tablet-dock-pad.py:625-632 | a target's line, if it has one, goes down once and is left down |
| `TouchDock.Dock.Release` | overlay/tablet-dock-pad.py:589-595 | a target's line, if it has one, goes up once and is left up |
| `TouchDock.Dock.LiftFinger` | overlay/tablet-dock-pad.py:582-605 | a lifted finger is forgotten and what it held released; on the trackpad exactly a short still touch clicks, on a top button exactly a still one acts |
| `TouchDock.Dock.LiftFingers` | overlay/tablet-dock-pad.py:581-607 | every finger no longer down is lifted, and no other; the left button is clicked exactly once for every short still touch of the trackpad, an action taken for every still one of a top button, and every sticky modifier let go exactly when a finger left a plain key |
| `TouchDock.Dock.TouchDown` | overlay/tablet-dock-pad.py:616-634 | a new finger takes the target it lands on, or belongs to the trackpad |
| `TouchDock.Dock.TrackFinger` | overlay/tablet-dock-pad.py:612-638 | one finger that is down: entered with its start if new, otherwise left alone; free exactly when it holds nothing |
| `TouchDock.Dock.MovePad` | overlay/tablet-dock-pad.py:640-678 | the positions of one or two free fingers are brought up to date, no held finger's is touched |
| `TouchDock.Dock.TrackFingers` | overlay/tablet-dock-pad.py:609-638 | every finger down is seen once its coordinates are known, a held target never changes, the free fingers are exactly those holding nothing, every line is pressed once per finger landing on it and a modifier toggled once per finger |
| `TouchDock.Dock.OnReport` | overlay/tablet-dock-pad.py:572-678 | a slot holds exactly what it held while down, or what it has just landed on; a line that gains a finger is down, one that only loses a finger up, any other as it was but for taps on the left button; each line is pressed exactly once for every finger landing on it, the left button also once for every tap; the modifier flags are those the fingers make; four fingers change nothing; with no finger down every key and button is up |
| `TouchDock.Dock.HandleReport` | overlay/tablet-dock-pad.py:572-678 | a report makes the slots seen and held, and so the lines, exactly what the events so far say; with no finger down every key and button was last written up |
| `TouchDock.Dock.Record` | overlay/tablet-dock-pad.py:562-571 | a slot, tracking id or coordinate is recorded under the current slot and nothing else changes |
| `TouchDock.Dock.Handle` | overlay/tablet-dock-pad.py:562-678 | the dictionaries after an event are that event's function of those before; only a report writes, and the log only grows |
| `TouchDock.Dock.TouchLoop` | overlay/tablet-dock-pad.py:543-681 | for every event sequence the slots, coordinates, fingers seen, targets held, all modifier flags and every line but the left button are those of the events, each such line pressed exactly as often as a finger landed on it; downs minus ups equal the number of holding slots and a line no slot holds is up; the modifier flags match the devices; when the last event is a report and the events leave no finger down, every key and button is up |
| `Edid.ActiveReadsBackIff` | overlay/drivers/gpu/drm/msdisp/usb_device.c:457-467 | the pixel clock always reads back, the active and blanking sizes exactly when below 4096 |
| `Edid.HSyncReadsBackIff` | overlay/drivers/gpu/drm/msdisp/usb_device.c:468-471 | horizontal sync offset and width read back exactly when below 1024 |
| `Edid.VSyncReadsBackIff` | overlay/drivers/gpu/drm/msdisp/usb_device.c:470-471 | vertical sync offset and width read back exactly when below 16, because bits 8 and 9 are stored where the standard puts 4 and 5 |
| `Edid.PorchLost` | overlay/drivers/gpu/drm/msdisp/usb_device.c:470-471 | a vertical sync offset of 16 reads back as 0 |
| `Edid.RestMakesWhole` | overlay/drivers/gpu/drm/msdisp/usb_device.c:440-455 | the derived rest of a mode number and its part add up to the whole, in 16 bits |
| `Edid.ModeNumbers` | overlay/drivers/gpu/drm/msdisp/usb_device.c:440-455 | front porch, sync and back porch of the converted timing add up to the mode's own totals and offsets |
| `Edid.FlagsRead` | overlay/drivers/gpu/drm/msdisp/usb_device.c:472-479 | byte 17 says digital separate sync and nothing else but the two sync bits and the complement of bit 0 of the polarity |
| `Edid.PolarityReadsBack` | overlay/drivers/gpu/drm/msdisp/usb_device.c:472-479 | the two polarities of a descriptor read back as the mode's |
| `Edid.ModeReadsBack` | overlay/drivers/gpu/drm/msdisp/usb_device.c:440-479 | a packed descriptor, read by the standard, gives the mode table entry's own numbers and polarities back |
| `Edid.DetailedTimingConvert` | overlay/drivers/gpu/drm/msdisp/usb_device.c:457-479 | the 18 bytes are written at their place and nothing else changes |
| `Edid.ChecksumCalc` | overlay/drivers/gpu/drm/msdisp/usb_device.c:481-490 | the 128 bytes sum to zero modulo 256, whatever the last one was |
| `Edid.DescriptorAt` | overlay/drivers/gpu/drm/msdisp/usb_device.c:511-519 | the k-th packed descriptor is that of the k-th timing |
| `Edid.PackTimings` | overlay/drivers/gpu/drm/msdisp/usb_device.c:510-519 | the packed timings, zero where none is left |
| `Edid.PatchedReadsAs` | overlay/drivers/gpu/drm/msdisp/usb_device.c:492-524 | every descriptor of a patched block that came from a mode, read at its own place in the block by the standard's rules, gives that mode's clock, sizes, offsets and polarities back |
| `Edid.UpdateDetailedTiming` | overlay/drivers/gpu/drm/msdisp/usb_device.c:492-524 | a positive count on block 0 replaces the four descriptors by at most two timings and zeros, keeps every other byte and leaves the block summing to zero, and the modes put in read back from the block, numbers and polarities; otherwise nothing changes |
| `Raw10.DecodePackedRaw10` | tools/analyze_raw.py:105-119 | the loops compute the row-by-row decoding with its trimming, for any data, width and stride |
| `Raw10.AppendRow` | tools/analyze_raw.py:111-117 | the inner loop appends the samples of a row's complete groups |
| `Raw10.GroupSamples` | tools/analyze_raw.py:111-117 | of a group of five bytes, byte k is the high eight bits of sample k, and the fifth holds the low two of each, the first sample's lowest |
| `Raw10.SamplePlace` | tools/analyze_raw.py:111-117 | sample k of group i of a row comes out at place 4·i + k |
| `Raw10.RowRoundTrip` | tools/analyze_raw.py:111-117 | decoding a packed row gives the row |
| `Raw10.DecodeInvertsPack` | tools/analyze_raw.py:105-119 | decoding a packed image gives the image for every stride and whatever lies between the rows |
| `Raw10.PackImageIsPacked` | tools/analyze_raw.py:107-110 | such a packed form exists for every image of such a width, every stride of at least a row and every padding |
| `Raw10.DecodedLength` | tools/analyze_raw.py:107-118 | at most, and from enough data exactly, four samples per complete group of every row |
| `Raw10.TrimNeverCuts` | tools/analyze_raw.py:111-118 | the trimming after each row never cuts anything off, whatever the width: every row just adds its samples |
| `Raw10.WholeImageIff` | tools/analyze_raw.py:105-119 | from enough data exactly w·h values come out if and only if 4 divides the width or there are no rows |
| `Raw10.SamplesLost` | tools/analyze_raw.py:105-119 | an image 1366 samples wide loses two samples of every row |

## Left out

- The vmalloc and scatter-gather transfer path, statistics, timing and log output of
  the sender. The zero-length message after a frame is taken to end the packet even
  when it reports an error, which the source only logs.
- YUV framebuffers (usb_hal_interface.c:624-626): the planes offer 32-bit RGB only.
- Mode changes in the middle of a run, and the size check against 8 MB
  (usb_hal_interface.c:605): one enabled mode at a time, of even width up to 4092
  and height up to 4094, whose image fits the buffers.
- Buffers of pixels are arrays of 32-bit pixels, not of bytes; the framebuffer
  and the transfer buffer are bytes. The branches of `usb_hal_cursor_set` for an
  empty box (usb_hal_interface.c:716-720, 743-747) cannot be taken and are absent.
- 32-bit overflow of the cursor position plus its box: positions are unbounded integers.
- The display runs start with the driver's frame index equal to the chip's, as
  reading it at enable leaves it (`HalEvents.StateMachine.DoEnable`). Failing device
  commands at enable, disable and first delivery are only logged by the source.
- Picture: a start takes over the chip's index; a failing read, which sets index 0
  (`HalEvents.StateMachine.DoEnable`), is not played.
- Which calls of usb_hal_interface.c push which event: any event may be pushed at any time.
- The capacity of the event FIFO and the wait queue's timeout: the queue is
  unbounded and a pass may come at any time.
- URB submission, HID messages, regmap and I2C, DRM, GEM and sysfs glue, the
  mode table: calls that succeed or fail.
- HUSB320 connector parsing and hardware initialisation (husb320.c:703-775,
  818-1050): `Probe` starts where the port is registered, with VBUS off and nothing
  attached, and leaves out the interrupts its error path may still let in.
- The register values written for port type, preferred role and host current.
- HUSB320: two locked sections of a removal or shutdown are separate events, so
  that interrupts and port-type changes may come between them.
- Serve: the interrupt line may still fire after it was masked; the driver's own check of the latch is what the proof uses.
- Battery: the zero-voltage mode and its thresholds, the work-mode switch of
  rk817_bat_display_smooth, charge-finish recalibration (rk817_battery.c:2769-2776),
  device-tree parsing, resume accounting and negative voltages.
- Smoothing: capacities are integers and not u32 differences, and one slope times
  one capacity change is taken not to overflow an int (true below 16 Ah per tick).
- FinishDsoc: the clock is read once per call; the source reads it several times.
- Pick: the source walks its dictionaries in insertion order; here the order in
  which fingers of one report are handled is left open, so results hold for all orders.
- TouchLoop: over a run nothing is said of the left button; `OnReport` says how often one report
  presses it, taps included, from the positions at that moment.
- Pointer motion and scroll events (tablet-dock-pad.py:653-674): pure output with
  floating-point tuning; the positions they record are kept.
- Widget classes, layout rebuilds, app actions and the exit path of the dock;
  top-button actions are only counted. A layout names the five modifier keys only
  through its MOD entries (tablet-dock-pad.py:438-500).
- Edid: image sizes, borders and the standard's descriptor tags, which the driver writes as constants.
- The other layouts and statistics of tools/analyze_raw.py, camera sensor drivers,
  capture tools, the Wi-Fi files: input/output plumbing or not part of this model.
