/**
 * The first half of the frame callback `cb`: every RGBA pixel of the incoming
 * frame becomes one `u32` word holding its red, green and blue bytes, with the
 * alpha byte dropped.
 */
module RgbPacking {
  import opened MachineWords

  /** Number of words packed per frame: the length of the loop's driving array. */
  const FrameWords: nat := 414720

  /** The loop reads `data` at indices up to 4 * (FrameWords - 1) + 2. */
  const BytesRead: nat := 4 * (FrameWords - 1) + 3

  /** Rust's `w << 8` on a `u32`: bits shifted past bit 31 are discarded. */
  function Shl8(w: u32): (r: u32)
    ensures r as int % 0x100 == 0
    ensures w as int < 0x100_0000 ==> r as int == w as int * 0x100
  {
    (w as int * 256 % U32Limit) as u32
  }

  /** The word a pixel with colour bytes r, g, b stands for: 0x00RRGGBB. */
  function RgbWord(r: u8, g: u8, b: u8): int {
    r as int * 0x1_0000 + g as int * 0x100 + b as int
  }

  /** The three colour bytes are recovered from the packed word: packing loses nothing but alpha. */
  lemma RgbWordUnpacks(r: u8, g: u8, b: u8)
    ensures 0 <= RgbWord(r, g, b) < 0x100_0000
    ensures RgbWord(r, g, b) / 0x1_0000 == r as int
    ensures RgbWord(r, g, b) / 0x100 % 0x100 == g as int
    ensures RgbWord(r, g, b) % 0x100 == b as int
  {
    var w := RgbWord(r, g, b);
    assert w == (r as int * 0x100 + g as int) * 0x100 + b as int;
    assert w / 0x100 == r as int * 0x100 + g as int;
  }

  /** The two shift-and-add steps of the loop body compute RgbWord without overflowing. */
  lemma ShiftAddIsRgbWord(r: u8, g: u8, b: u8)
    ensures Shl8(r as int as u32) as int + g as int < U32Limit
    ensures Shl8((Shl8(r as int as u32) as int + g as int) as u32) as int + b as int == RgbWord(r, g, b)
  {
  }

  /**
   * The packing loop: `buf[index]` is built from `data[4 * index]`, shifted left
   * by eight and added to `data[4 * index + 1]`, shifted again and added to
   * `data[4 * index + 2]`. The byte at `4 * index + 3` is never read.
   */
  method PackFrame(data: array<u8>) returns (buf: array<u32>)
    requires data.Length >= BytesRead
    ensures buf.Length == FrameWords
    ensures forall i :: 0 <= i < FrameWords ==>
      buf[i] as int == RgbWord(data[4 * i], data[4 * i + 1], data[4 * i + 2])
    ensures forall i :: 0 <= i < FrameWords ==> buf[i] as int < 0x100_0000
  {
    buf := new u32[FrameWords];
    var index := 0;
    while index < FrameWords
      invariant 0 <= index <= FrameWords
      invariant forall i :: 0 <= i < index ==>
        buf[i] as int == RgbWord(data[4 * i], data[4 * i + 1], data[4 * i + 2])
    {
      var pos := index * 4;
      ShiftAddIsRgbWord(data[pos], data[pos + 1], data[pos + 2]);
      var word := data[pos] as int as u32;
      word := Shl8(word) + data[pos + 1] as int as u32;
      word := Shl8(word) + data[pos + 2] as int as u32;
      buf[index] := word;
      index := index + 1;
    }
    forall i | 0 <= i < FrameWords
      ensures buf[i] as int < 0x100_0000
    {
      RgbWordUnpacks(data[4 * i], data[4 * i + 1], data[4 * i + 2]);
    }
  }
}
