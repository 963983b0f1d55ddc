# fpv frame callback and tracker glue, in Dafny

This project models the logic of `src/main.rs` of the fpv drone program: what happens to each video frame the
drone delivers, and the two-flag state machine that wraps the object tracker.

- **RGB packing** (`RgbPacking`, `packing.dfy`). The callback `cb` turns the RGBA frame into 414720 `u32`
  words. Each word is `(((r << 8) + g) << 8) + b`, built from the first three bytes of a pixel. The alpha byte is never
  read. `PackFrame` keeps the loop, the shifts (`Shl8` discards bits past bit 31, as Rust's `<<` does) and the
  checked additions. It is proved against `RgbWord(r, g, b) = r * 65536 + g * 256 + b`.
- **Outline painter** (`BoxOutline`, `outline.dfy`). `cb` scales the tracker's box by 4 and walks the scaled
  box on a grid of step 4. It skips strictly interior points and writes 255, 255, 0, 255 at byte `y * width + x`.
  For grid cell (k, m) that byte offset equals `4 * ((by + m) * width + bx + k)`. This is the first byte of pixel
  (bx + k, by + m) of the RGBA frame. So the specification is a set of pixel indices, `Outline(b, width)`. The
  painter leaves a frame in which byte `j` has outline colour `j % 4` when pixel `j / 4` is in that set, and is
  unchanged otherwise (`Drawn`). `OutlineIsBoxEdge` gives an independent reading of that set: when the box fits
  within the frame width, the set holds exactly the pixels whose column `q % width` and row `q / width` lie on the
  box's edge.
- **Tracker glue** (`Tracker`, `tracker.dfy`). These are the C++ statics `boundingBox`, `selectObject` and
  `initialized`, with `init` and `track`. The class `TrackerContext` holds the statics; its methods are specified by
  the pure `InitStep` and `TrackStep`. `Run` folds `TrackStep` over a sequence of frames. The lemmas about `Run`
  state the lifecycle. `initialized` never goes back to false. Without `init`, nothing happens. After `init`, the
  first `track` call only initialises the tracker, and every later call writes its update to `result`.
- **The callback** (`FrameCallback`, `callback.dfy`). `OnFrame` is `cb` put together: pack, track, then paint the
  box read back from `bounding_box`. `bounding_box` is a `[u32; 4]` that the C++ side fills through an `int32_t`
  pointer, so `BoxRead` reads each value as its two's-complement bit pattern (`MachineWords.AsU32`).

The tracker library is opaque. Each call receives the box its update produces (`updated`) and whether its
initialisation succeeded (`initOk`) as parameters. Any box and either flag are allowed.

## Model

| member | source | states |
|---|---|---|
| `RgbPacking.PackFrame` | src/main.rs:76-87 | The loop packs all 414720 words. Word i is `data[4i]*65536 + data[4i+1]*256 + data[4i+2]`, so it is below 2^24 and does not depend on `data[4i+3]`. The only precondition is that `data` holds the 1658879 bytes the loop reads. |
| `RgbPacking.Shl8` | src/main.rs:84-85 | Rust's `<< 8` on a `u32` leaves the low byte zero. For a word below 2^24 it loses no bits and equals the word times 256. |
| `RgbPacking.ShiftAddIsRgbWord` | src/main.rs:83-85 | The two shift-left-by-8-then-add steps never overflow a `u32`. Their result is exactly `r*65536 + g*256 + b`. |
| `RgbPacking.RgbWordUnpacks` | src/main.rs:83-85 | A packed word is below 2^24. Its red, green and blue bytes are recovered by `/65536`, `/256 % 256` and `% 256`, so packing loses nothing but alpha. |
| `BoxOutline.PaintOutline` | src/main.rs:96-113 | After the painter, each byte `j` of pixel `j/4` in `Outline(box, width)` holds colour `j%4` (255, 255, 0, 255). Every other byte is unchanged. The requires states exactly that no `u32` step the program performs overflows and that every write is in range. `_x + _width` is only required to fit when the outer loop runs (height > 0). |
| `BoxOutline.PaintRow` | src/main.rs:102-113 | One pass of the inner loop, over grid row m, extends the drawn set from the pixels before row m to the pixels before row m+1. |
| `BoxOutline.PaintCell` | src/main.rs:103-111 | One grid point: a point with `x > _x && x < _x+_width-4 && y > _y && y < _y+_height-4` is skipped. Any other point adds its pixel to the drawn set. |
| `BoxOutline.FillPixel` | src/main.rs:107-111 | Writing `pos..pos+3` with `pos = 4q` colours pixel q and changes no other byte. A frame drawn with set S becomes one drawn with S plus q. |
| `BoxOutline.CellOffset` | src/main.rs:96-109 | For cell (k, m) of the box, `y*width + x` with `x = 4*(bx+k)` and `y = 4*(by+m)` is `4*((by+m)*width + bx+k)`. This is the pixel's first byte. It and the three bytes after it stay below 2^32 and inside `data`. |
| `BoxOutline.PaintedStep` | src/main.rs:102-105 | Visiting cell (k, m) adds that cell's pixel to the drawn set exactly when the cell is not strictly interior. |
| `BoxOutline.PaintedRowDone` | src/main.rs:101-102 | Finishing grid row m is the same as starting row m+1. |
| `BoxOutline.DrawnGrow` | src/main.rs:107-111 | Colouring one more pixel on a frame drawn with set S gives a frame drawn with S plus that pixel. |
| `BoxOutline.EmptyBoxDrawsNothing` | src/main.rs:89-102 | A box with zero width or height, such as the all-zero `bounding_box` left when `track` writes nothing, has an empty outline. The frame stays unchanged. |
| `BoxOutline.OutlineIsBoxEdge` | src/main.rs:96-107 | If the box fits within the frame width, pixel q is drawn if and only if its column `q % width` and row `q / width` lie in the box and not strictly inside it. |
| `BoxOutline.OutlineOnBoxEdge` | src/main.rs:96-107 | If the box fits within the frame width, every drawn pixel lies on the box's edge in frame coordinates. |
| `BoxOutline.BoxEdgeInOutline` | src/main.rs:96-107 | Every frame pixel on the box's edge, in column/row terms, is drawn. |
| `Tracker.TrackStep` | src/main.rs:45-58 | One `track` call sets `initialized` to `initialized or selectObject` and leaves `selectObject` alone. It writes `result` iff `initialized` held on entry. It then writes the update, which also becomes the box. Otherwise the box is unchanged. |
| `Tracker.InitStep` | src/main.rs:34-39 | `init` sets the box to the seed (347, 85, 73, 70) and `selectObject` to true. It leaves `initialized` unchanged. |
| `Tracker.RunMonotone` | src/main.rs:42-59 | Over any sequence of `track` calls, `initialized` is never reset and `selectObject` never changes. Once initialised, every call writes its update, and the box ends as the last update. |
| `Tracker.RunWithoutInit` | src/main.rs:25-59 | From the initial flags (both false), `track` calls change nothing and write nothing. |
| `Tracker.RunAfterInit` | src/main.rs:31-59 | After `init`, n `track` calls leave `initialized` true iff n > 0. The boxes written to `result` are exactly the updates from the second call on. The first call writes nothing, whether or not the tracker initialisation succeeds. |
| `Tracker.TrackerContext.constructor` | src/main.rs:22-28 | The statics start as a zero box with `selectObject` and `initialized` false. |
| `Tracker.TrackerContext.Init` | src/main.rs:31-40 | `init` sets the box to (347, 85, 73, 70) and `selectObject` to true. `initialized` is left unchanged. |
| `Tracker.TrackerContext.Track` | src/main.rs:42-59 | The new statics are `TrackStep` of the old ones. `initialized` is never reset. `result` is untouched unless `initialized` held on entry. When it did, `result[0..4]` becomes x, y, width, height of the update. |
| `FrameCallback.BoxRead` | src/main.rs:89-99 | Box values written as `int32_t` are read back as `u32`. Non-negative values are read unchanged. |
| `MachineWords.AsU32` | src/main.rs:89-99 | An `int32_t` read as a `u32` is congruent to it modulo 2^32. It is the same value when non-negative and the value plus 2^32 when negative. |
| `MachineWords.AsU32RoundTrip` | src/main.rs:89-96 | Reading an `int32_t` as a `u32` and back gives the original value, in both directions. No information is lost. |
| `FrameCallback.OnFrame` | src/main.rs:73-113 | The tracker statics after `cb` are `TrackStep` of those before. The frame is drawn with the outline of the reported box if the tracker was initialised on entry. Otherwise it is drawn with the empty outline of the zero box, so it is left exactly as it was. |

## Left out

- The tracker library calls (`Tracker::create`, `tracker->init`, `tracker->update`) and the construction of the
  `Mat` frame are foreign code. The update is the parameter `updated`. The initialisation result is `initOk`, which
  only decides whether a message is printed. Tracker creation is not modelled.
- The tracker's `Rect2d` holds doubles that are truncated to `int32_t` when written to `result`. That floating-point
  step is not modelled; the box is an `int32_t` rectangle throughout.
- The console message on a failed initialisation is not modelled.
- `main`, `VideoListener::new` and `wifi_drone::connect` are network and video I/O in a crate that is not part of
  this model. The one effect of `main` on the modelled state, a single `init` before any frame, is what
  `Tracker.RunAfterInit` assumes. The link handshake, stream reassembly, heartbeat and throttle/yaw control are not
  part of this model either. They are not in `src/main.rs`. The acquisition in this file is a fixed seed box handed
  to the tracker; there is no detection voting.
- The `cpp!` marshalling is boundary plumbing. This includes passing `&buf`, the address of the pointer, as the
  `Mat` data; what the tracker sees of the frame is covered by `updated`. The statics `image`, `paused`,
  `startSelection` and `tracker_algorithm` are not modelled because no modelled code reads them. The `height`
  argument of `cb` only reaches the tracker.
- `RgbPacking.PackFrame`: the program panics when `data` is shorter than 1658879 bytes. The model makes this a
  precondition instead of modelling the panic. The loop reads indices up to 1658878, one less than the 1658880-byte
  frame size noted in the code.
- `BoxOutline.PaintOutline`: `u32` overflow panics and out-of-range indexing are stated as the precondition
  `PaintInRange` instead of being modelled. Negative tracker coordinates therefore fall outside the model: read as
  `u32` they are at least 2^31, so scaling by 4 overflows.
- `FrameCallback.OnFrame`: the packed words reach only the opaque tracker. The model does not relate them to the box
  the tracker returns.
