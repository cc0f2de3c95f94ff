/** How C code reads a text that it is handed as bytes: up to the first NUL. */
module CStrings {
  import opened Bits

  function UpToNul<T(==)>(s: seq<T>, nul: T): (c: seq<T>)
    ensures c <= s && nul !in c && (|c| < |s| ==> s[|c|] == nul)
    ensures c == s <==> nul !in s
  {
    if s == [] || s[0] == nul then [] else [s[0]] + UpToNul(s[1..], nul)
  }

  lemma {:induction false} UpToNulIs<T>(front: seq<T>, nul: T, rest: seq<T>)
    requires nul !in front
    ensures UpToNul(front + [nul] + rest, nul) == front
  {
    var s := front + [nul] + rest;
    if front != [] {
      assert s[1..] == front[1..] + [nul] + rest;
      UpToNulIs(front[1..], nul, rest);
    }
  }

  function CText(s: seq<Byte>): (text: seq<Byte>)
    ensures text <= s && 0 !in text && (|text| < |s| ==> s[|text|] == 0)
    ensures text == s <==> 0 !in s
  {
    UpToNul<Byte>(s, 0)
  }
}
