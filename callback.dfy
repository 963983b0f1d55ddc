/**
 * The per-frame callback `cb`, called by the video listener with one RGBA
 * frame: pack the frame into colour words, let the tracker see it, and draw the
 * tracker's box into the frame.
 */
module FrameCallback {
  import opened MachineWords
  import opened RgbPacking
  import opened BoxOutline
  import opened Tracker

  /**
   * `bounding_box` is a `[u32; 4]` that `track` fills through an `int32_t`
   * pointer, so the callback reads each reported value as its `u32` bit pattern.
   */
  function BoxRead(r: Rect): (b: BoxWords)
    ensures r.x >= 0 && r.y >= 0 && r.width >= 0 && r.height >= 0 ==>
      b.x as int == r.x as int && b.y as int == r.y as int && b.w as int == r.width as int && b.h as int == r.height as int
  {
    BoxWords(AsU32(r.x), AsU32(r.y), AsU32(r.width), AsU32(r.height))
  }

  /**
   * `cb`. The tracker's update for this frame is `updated` and its
   * initialisation result `initOk`. The frame is drawn on only when the
   * tracker was already initialised on entry; otherwise `bounding_box` keeps
   * its zeros and the frame is left as it was.
   */
  method OnFrame(ctx: TrackerContext, data: array<u8>, width: u32, height: u32, updated: Rect, initOk: bool)
    requires data.Length >= BytesRead
    requires ctx.initialized ==> PaintInRange(BoxRead(updated), width, data.Length)
    modifies ctx, data
    ensures ctx.State() == TrackStep(old(ctx.State()), updated).state
    ensures Drawn(data[..], old(data[..]),
                  Outline(if old(ctx.initialized) then BoxRead(updated) else NoBox, width as int))
    ensures !old(ctx.initialized) ==> data[..] == old(data[..])
  {
    var buf := PackFrame(data);
    var boundingBox := new i32[4](_ => 0);
    ctx.Track(boundingBox, updated, initOk);
    var b := BoxRead(Rect(boundingBox[0], boundingBox[1], boundingBox[2], boundingBox[3]));
    PaintOutline(data, b, width);
    if !old(ctx.initialized) {
      EmptyBoxDrawsNothing(b, width as int, old(data[..]), data[..]);
    }
  }
}
