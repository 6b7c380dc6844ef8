/** Decoded text: each `char` is one rune. */
module Runes {

  const FENCE := "```"

  /** `unicode.IsSpace`. */
  predicate IsSpace(c: char) {
    || '\t' <= c <= '\r' || c == ' ' || c == '\U{85}' || c == '\U{A0}' || c == '\U{1680}'
    || '\U{2000}' <= c <= '\U{200A}' || c == '\U{2028}' || c == '\U{2029}' || c == '\U{202F}'
    || c == '\U{205F}' || c == '\U{3000}'
  }

  /** `strings.TrimSpace(s) == ""`. */
  predicate Blank(s: string) {
    forall i :: 0 <= i < |s| ==> IsSpace(s[i])
  }

  function TrimLeft(s: string): (r: string)
    ensures r == "" || !IsSpace(r[0])
  {
    if s == "" || !IsSpace(s[0]) then s else TrimLeft(s[1..])
  }

  function TrimRight(s: string): (r: string)
    ensures r <= s && (r == "" || !IsSpace(r[|r| - 1]))
  {
    if s == "" || !IsSpace(s[|s| - 1]) then s else TrimRight(s[..|s| - 1])
  }

  /** `strings.TrimSpace`. */
  function Trim(s: string): (r: string)
    ensures r == "" || (!IsSpace(r[0]) && !IsSpace(r[|r| - 1]))
  {
    TrimRight(TrimLeft(s))
  }

  predicate FenceAt(s: string, i: int) {
    0 <= i && i + 3 <= |s| && s[i..i + 3] == FENCE
  }

  ghost predicate HasFence(s: string) {
    exists i :: FenceAt(s, i)
  }

  /** `strings.Index(s, "```")`, counting from `i`, with the length for "none". */
  function FenceFrom(s: string, i: nat): (r: nat)
    requires i <= |s|
    ensures i <= r <= |s|
    ensures forall j :: i <= j < r ==> !FenceAt(s, j)
    ensures r < |s| ==> FenceAt(s, r)
    decreases |s| - i
  {
    if i == |s| || FenceAt(s, i) then i else FenceFrom(s, i + 1)
  }

  function FirstFence(s: string): (r: nat)
    ensures r <= |s| && (forall j :: 0 <= j < r ==> !FenceAt(s, j)) && (r < |s| ==> FenceAt(s, r))
    ensures HasFence(s) <==> r < |s|
  {
    FenceFrom(s, 0)
  }

  lemma FirstFenceIs(s: string, i: nat)
    requires FenceAt(s, i) && forall j :: 0 <= j < i ==> !FenceAt(s, j)
    ensures FirstFence(s) == i
  {
  }

  lemma FenceInAppended(s: string, t: string, i: int)
    ensures FenceAt(s, i) ==> FenceAt(s + t, i)
    ensures 0 <= i && i + 3 <= |s| && FenceAt(s + t, i) ==> FenceAt(s, i)
    ensures FenceAt(t, i) ==> FenceAt(s + t, i + |s|)
    ensures i >= |s| && FenceAt(s + t, i) ==> FenceAt(t, i - |s|)
  {
    if 0 <= i && i + 3 <= |s| {
      assert (s + t)[i..i + 3] == s[i..i + 3];
    }
    if FenceAt(t, i) {
      assert (s + t)[i + |s|..i + |s| + 3] == t[i..i + 3];
    }
    if i >= |s| && FenceAt(s + t, i) {
      assert (s + t)[i..i + 3] == t[i - |s|..i - |s| + 3];
    }
  }
}
