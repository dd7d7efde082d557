/** The cache's main memory: one character buffer cut into frames of equal size. */
module MainMemories {
  import opened Options
  import opened Records
  import opened Pages

  /** The offset of a frame. */
  function Start(frame: nat, size: nat): nat
  {
    if frame == 0 then 0 else Start(frame - 1, size) + size
  }

  lemma {:induction false} StartIsProduct(frame: nat, size: nat)
    ensures Start(frame, size) == frame * size
  {
    if frame > 0 {
      StartIsProduct(frame - 1, size);
      assert (frame - 1) * size + size == frame * size;
    }
  }

  /** Frames do not overlap. */
  lemma {:induction false} StartsApart(frame: nat, other: nat, size: nat)
    requires frame < other
    ensures Start(frame, size) + size <= Start(other, size)
    decreases other
  {
    if frame < other - 1 { StartsApart(frame, other - 1, size); }
  }

  /** The bytes of a frame, if it lies in the buffer. */
  function Bytes(buffer: string, frame: nat, size: nat): string
  {
    if Start(frame, size) + size <= |buffer| then buffer[Start(frame, size)..Start(frame, size) + size] else ""
  }

  /** The C string at the start of a frame. */
  function TextAt(buffer: string, frame: nat, size: nat): string { Until(Bytes(buffer, frame, size), NUL) }

  /** A strcpy to the start of a frame. */
  ghost predicate Copied(before: string, after: string, frame: nat, size: nat, text: string)
  {
    && |before| == |after| && |text| < size && Start(frame, size) + size <= |after|
    && (forall k :: 0 <= k < |text| ==> after[Start(frame, size) + k] == text[k])
    && after[Start(frame, size) + |text|] == NUL
    && forall k :: 0 <= k < |after| && !(Start(frame, size) <= k <= Start(frame, size) + |text|) ==> after[k] == before[k]
  }

  lemma CopiedHere(before: string, after: string, frame: nat, size: nat, text: string)
    requires Copied(before, after, frame, size, text) && NUL !in text
    ensures TextAt(after, frame, size) == text
  {
    hide Start;
    var bytes := Bytes(after, frame, size);
    assert forall k :: 0 <= k < |text| ==> bytes[k] == text[k];
    assert bytes == text + [NUL] + bytes[|text| + 1..];
    UntilStops(text, NUL, bytes[|text| + 1..]);
  }

  lemma CopiedElsewhere(before: string, after: string, frame: nat, size: nat, text: string, other: nat)
    requires Copied(before, after, frame, size, text) && other != frame
    ensures TextAt(after, other, size) == TextAt(before, other, size)
  {
    hide Start;
    if other < frame { StartsApart(other, frame, size); } else { StartsApart(frame, other, size); }
    assert Bytes(after, other, size) == Bytes(before, other, size);
  }

  /** Byte k of a frame that holds a C string of at least k characters. */
  lemma TextByte(buffer: string, frame: nat, size: nat, k: nat)
    requires Start(frame, size) + size <= |buffer| && k <= |TextAt(buffer, frame, size)| < size
    ensures var text, byte := TextAt(buffer, frame, size), buffer[Start(frame, size) + k];
            if k < |text| then byte == text[k] != NUL else byte == NUL
  {
    hide Start, Until;
    var start, bytes, text := Start(frame, size), Bytes(buffer, frame, size), TextAt(buffer, frame, size);
    assert bytes[k] == buffer[start + k];
    assert k < |text| ==> text[k] in text;
  }

  class MainMemory {
    const pageSize: nat
    const pageCount: nat
    const buffer: array<char>

    ghost predicate InBuffer()
    {
      pageSize >= |NULL| + 1 && Start(pageCount, pageSize) <= buffer.Length
    }

    /** Every frame holds a string that ends before the next frame starts. */
    ghost predicate Valid()
      reads buffer
    {
      InBuffer() && forall f :: 0 <= f < pageCount ==> |TextAt(buffer[..], f, pageSize)| < pageSize
    }

    ghost function Frames(): (frames: seq<string>)
      reads buffer
      ensures |frames| == pageCount
    {
      var bytes := buffer[..];
      seq(pageCount, f requires 0 <= f < pageCount => TextAt(bytes, f, pageSize))
    }

    /** The allocation of the memory, whose bytes are then arbitrary. */
    constructor (memorySize: nat, size: nat)
      requires size >= |NULL| + 1
      ensures InBuffer() && fresh(buffer) && pageSize == size && pageCount == memorySize / size
    {
      pageSize := size;
      pageCount := memorySize / size;
      buffer := new char[memorySize];
      StartIsProduct(memorySize / size, size);
    }

    /** The loop of init_main_memory. */
    method Init()
      requires InBuffer()
      modifies buffer
      ensures Valid() && forall f :: 0 <= f < pageCount ==> Frames()[f] == NULL
    {
      hide Start, TextAt;
      for f := 0 to pageCount
        invariant forall g :: 0 <= g < f ==> TextAt(buffer[..], g, pageSize) == NULL
      {
        ghost var before := buffer[..];
        StrCpy(f, NULL);
        CopiedHere(before, buffer[..], f, pageSize, NULL);
        forall g | 0 <= g < f ensures TextAt(buffer[..], g, pageSize) == NULL {
          CopiedElsewhere(before, buffer[..], f, pageSize, NULL, g);
        }
      }
    }

    /** strcpy of a string and its NUL to the start of a frame. */
    method StrCpy(frame: nat, text: string)
      requires InBuffer() && frame < pageCount && |text| < pageSize
      modifies buffer
      ensures Copied(old(buffer[..]), buffer[..], frame, pageSize, text)
    {
      hide Start;
      StartsApart(frame, pageCount, pageSize);
      var start := Start(frame, pageSize);
      var i := 0;
      while i < |text|
        invariant 0 <= i <= |text|
        invariant forall k :: 0 <= k < i ==> buffer[start + k] == text[k]
        invariant forall k :: 0 <= k < buffer.Length && !(start <= k < start + i) ==> buffer[k] == old(buffer[k])
      {
        buffer[start + i] := text[i];
        i := i + 1;
      }
      buffer[start + |text|] := NUL;
    }

    /** Writing one frame leaves every other frame as it was. */
    method Write(frame: nat, text: string)
      requires Valid() && frame < pageCount && |text| < pageSize && NUL !in text
      modifies buffer
      ensures Valid() && Frames() == old(Frames())[frame := text]
    {
      hide Start, TextAt;
      ghost var before, frames := buffer[..], Frames();
      StrCpy(frame, text);
      CopiedHere(before, buffer[..], frame, pageSize, text);
      forall f | 0 <= f < pageCount ensures TextAt(buffer[..], f, pageSize) == frames[frame := text][f] {
        if f != frame { CopiedElsewhere(before, buffer[..], frame, pageSize, text, f); }
      }
    }

    /** The C string at a frame. */
    method Read(frame: nat) returns (text: string)
      requires Valid() && frame < pageCount
      ensures text == Frames()[frame]
    {
      hide Start, TextAt;
      StartsApart(frame, pageCount, pageSize);
      var start := Start(frame, pageSize);
      ghost var goal := TextAt(buffer[..], frame, pageSize);
      text := "";
      while buffer[start + |text|] != NUL
        invariant |text| <= |goal| < pageSize && text == goal[..|text|]
        decreases |goal| - |text|
      {
        TextByte(buffer[..], frame, pageSize, |text|);
        text := text + [buffer[start + |text|]];
      }
      TextByte(buffer[..], frame, pageSize, |text|);
    }
  }
}
