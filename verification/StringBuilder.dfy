/** The growing buffer of UTF-16 code units behind every string the runtime builds. */
module StringBuilders {
  import opened Bits

  const LARGEST_UNIT := 65535
  const LARGEST_CODE := 1114111
  const HIGH_SURROGATE := 55296
  const LOW_SURROGATE := 56320

  /** The code units of one code point. */
  function Units(code: nat): (u: seq<Unit>)
    requires code <= 0x10_ffff
    ensures 1 <= |u| <= 2 && (|u| == 1 <==> code < 0x1_0000)
    ensures |u| == 1 ==> u[0] == code
    ensures |u| == 2 ==> 0xd800 <= u[0] < 0xdc00 <= u[1] < 0xe000
    ensures |u| == 2 ==> (u[0] as nat - 0xd800) * 0x400 + (u[1] as nat - 0xdc00) + 0x1_0000 == code
  {
    if code <= LARGEST_UNIT then [code]
    else [HIGH_SURROGATE + (code - 65536) / 1024, LOW_SURROGATE + (code - 65536) % 1024]
  }

  /** `d` with `n` units from `o` on replaced by those of `s` from `p` on. */
  function Spliced(d: seq<Unit>, o: nat, s: seq<Unit>, p: nat, n: nat): (m: seq<Unit>)
    requires o + n <= |d| && p + n <= |s|
    ensures |m| == |d| && forall j | 0 <= j < |d| :: m[j] == if o <= j < o + n then s[j - o + p] else d[j]
  {
    d[..o] + s[p..p + n] + d[o + n..]
  }

  lemma OneUp(d: seq<Unit>, o: nat, s: seq<Unit>, p: nat, i: nat)
    requires o + i < |d| && p + i < |s|
    ensures Spliced(d, o, s, p, i)[o + i := s[p + i]] == Spliced(d, o, s, p, i + 1)
  {
  }

  lemma OneDown(d: seq<Unit>, o: nat, s: seq<Unit>, p: nat, i: nat, n: nat)
    requires i < n && o + n <= |d| && p + n <= |s|
    ensures Spliced(d, o + i + 1, s, p + i + 1, n - 1 - i)[o + i := s[p + i]] == Spliced(d, o + i, s, p + i, n - i)
  {
  }

  /** Moves `n` units; source and destination may be one array and may overlap. */
  method UnsafeBlit(dst: array<Unit>, dstOffset: nat, src: array<Unit>, srcOffset: nat, n: nat)
    requires dstOffset + n <= dst.Length && srcOffset + n <= src.Length
    modifies dst
    ensures dst[..] == Spliced(old(dst[..]), dstOffset, old(src[..]), srcOffset, n)
  {
    if dst == src && dstOffset < srcOffset {
      BlitUp(dst, dstOffset, srcOffset, n);
    } else {
      BlitDown(dst, dstOffset, src, srcOffset, n);
    }
  }

  /** The loop that moves units towards the front of their own array. */
  method BlitUp(dst: array<Unit>, dstOffset: nat, srcOffset: nat, n: nat)
    requires dstOffset < srcOffset && srcOffset + n <= dst.Length
    modifies dst
    ensures dst[..] == Spliced(old(dst[..]), dstOffset, old(dst[..]), srcOffset, n)
  {
    ghost var was := dst[..];
    var i := 0;
    while i < n
      invariant 0 <= i <= n && dst[..] == Spliced(was, dstOffset, was, srcOffset, i)
    {
      OneUp(was, dstOffset, was, srcOffset, i);
      assert dst[srcOffset + i] == dst[..][srcOffset + i] == was[srcOffset + i];
      dst[dstOffset + i] := dst[srcOffset + i];
      i := i + 1;
    }
  }

  /** The loop for every other case, from the last unit to the first. */
  method BlitDown(dst: array<Unit>, dstOffset: nat, src: array<Unit>, srcOffset: nat, n: nat)
    requires dstOffset + n <= dst.Length && srcOffset + n <= src.Length && (dst == src ==> srcOffset <= dstOffset)
    modifies dst
    ensures dst[..] == Spliced(old(dst[..]), dstOffset, old(src[..]), srcOffset, n)
  {
    ghost var was, from := dst[..], src[..];
    var i := n - 1;
    while i >= 0
      invariant -1 <= i < n && dst[..] == Spliced(was, dstOffset + i + 1, from, srcOffset + i + 1, n - 1 - i)
      invariant dst != src ==> src[..] == from
    {
      OneDown(was, dstOffset, from, srcOffset, i, n);
      assert src[srcOffset + i] == src[..][srcOffset + i] == from[srcOffset + i];
      dst[dstOffset + i] := src[srcOffset + i];
      i := i - 1;
    }
  }

  /** The forward copy out of a string; it is right when the text read lies below the place written. */
  method BlitFromString(dst: array<Unit>, dstOffset: nat, str: array<Unit>, strOffset: nat, n: nat)
    requires dstOffset + n <= dst.Length && strOffset + n <= str.Length
    requires dst == str ==> strOffset + n <= dstOffset
    modifies dst
    ensures dst[..] == Spliced(old(dst[..]), dstOffset, old(str[..]), strOffset, n)
  {
    var i, j := strOffset, dstOffset;
    while i < strOffset + n
      invariant strOffset <= i <= strOffset + n && j - dstOffset == i - strOffset
      invariant forall k | 0 <= k < dst.Length ::
        dst[k] == if dstOffset <= k < j then old(str[k - dstOffset + strOffset]) else old(dst[k])
    {
      dst[j] := str[i];
      i, j := i + 1, j + 1;
    }
  }

  class StringBuilder {
    var data: array<Unit>
    var len: nat

    ghost predicate Valid()
      reads this
    {
      1 <= data.Length && len <= data.Length
    }

    ghost function Contents(): seq<Unit>
      requires Valid()
      reads this, data
    {
      data[..len]
    }

    /** For the largest hint alone the source's `hint + 1` wraps around and asks for a negative capacity. */
    constructor (sizeHint: Int32)
      requires sizeHint < 0x7fff_ffff
      ensures Valid() && fresh(data) && Contents() == []
      ensures data.Length == if sizeHint < 1 then 1 else (sizeHint + 1) / 2
    {
      data := new Unit[if sizeHint < 1 then 1 else (sizeHint + 1) / 2](_ => 0);
      len := 0;
    }

    /** Doubles the capacity until it suffices; the old buffer is left as it was. */
    method GrowIfNecessary(required: nat)
      requires Valid() && required <= 0x4000_0000
      modifies this`data
      ensures Valid() && Contents() == old(Contents()) && required <= data.Length
      ensures if required <= old(data.Length) then data == old(data) else fresh(data) && data.Length < 2 * required
    {
      if required <= data.Length {
        return;
      }
      var enough: Int32 := data.Length;
      while enough < required
        invariant 1 <= enough < 2 * required
        decreases required - enough
      {
        enough := enough * 2;
      }
      var newData := new Unit[enough](_ => 0);
      UnsafeBlit(newData, 0, data, 0, len);
      assert newData[..len] == data[..len];
      data := newData;
    }

    /** Appends one code point as one unit or as a surrogate pair; beyond the last code point the runtime aborts. */
    method WriteChar(code: Word) returns (ok: bool)
      requires Valid() && len + 2 <= 0x4000_0000
      modifies this, data
      ensures Valid() && (data == old(data) || fresh(data))
      ensures ok <==> code <= 0x10_ffff
      ensures Contents() == if ok then old(Contents()) + Units(code) else old(Contents())
      ensures old(data)[..old(len)] == old(Contents())
      ensures ok && old(len) == old(data.Length) ==> fresh(data)
    {
      ghost var before := data;
      if code <= LARGEST_UNIT {
        GrowIfNecessary(len + 1);
        data[len] := code;
        assert before[..len] == old(data[..len]);
        len := len + 1;
        ok := true;
      } else if code <= LARGEST_CODE {
        GrowIfNecessary(len + 2);
        var c := code - 65536;
        data[len] := HIGH_SURROGATE + c / 1024;
        data[len + 1] := LOW_SURROGATE + c % 1024;
        assert before[..len] == old(data[..len]);
        len := len + 2;
        ok := true;
      } else {
        ok := false;
      }
    }

    /** Appends a piece of a string, which may be the text this builder itself handed out. */
    method WriteView(str: array<Unit>, start: nat, stop: nat)
      requires Valid() && start <= stop <= str.Length && len + (stop - start) <= 0x4000_0000
      requires str == data ==> stop <= len
      modifies this, data
      ensures Valid() && (data == old(data) || fresh(data))
      ensures Contents() == old(Contents()) + old(str[start..stop])
      ensures old(data)[..old(len)] == old(Contents())
      ensures start < stop && old(len) == old(data.Length) ==> fresh(data)
    {
      ghost var before := data;
      var n := stop - start;
      GrowIfNecessary(len + n);
      BlitFromString(data, len, str, start, n);
      assert before[..len] == old(data[..len]);
      len := len + n;
    }

    /** The text written: the buffer itself when it is exactly full, a copy otherwise. */
    method ToString() returns (str: array<Unit>)
      requires Valid()
      ensures str[..] == Contents()
      ensures if len == data.Length then str == data else fresh(str)
    {
      if len == data.Length {
        str := data;
      } else {
        str := new Unit[len](_ => 0);
        UnsafeBlit(str, 0, data, 0, len);
      }
    }
  }

  /**
    * A string handed out is never changed by a later write, even when it is the builder's own buffer,
    * and it may be appended to the builder it came from.
    */
  method HandedOutTextStays(builder: StringBuilder, code: Word) returns (text: array<Unit>)
    requires builder.Valid() && 2 * builder.len + 2 <= 0x4000_0000 && code <= 0x10_ffff
    modifies builder, builder.data
    ensures builder.Valid() && builder.Contents() == old(builder.Contents()) + old(builder.Contents()) + Units(code)
    ensures text[..] == old(builder.Contents())
  {
    text := builder.ToString();
    builder.WriteView(text, 0, text.Length);
    var _ := builder.WriteChar(code);
  }
}
