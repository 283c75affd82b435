/** Text primitives shared by the command scanners: Go's `unicode.IsSpace` and `strings.TrimSpace`. */
module Text {

  /** The characters with Unicode property White_Space, which `unicode.IsSpace` accepts. */
  predicate IsSpace(c: char) {
    || '\t' <= c <= '\r'
    || c == ' '
    || c == '\U{85}'
    || c == '\U{A0}'
    || c == '\U{1680}'
    || '\U{2000}' <= c <= '\U{200A}'
    || c == '\U{2028}'
    || c == '\U{2029}'
    || c == '\U{202F}'
    || c == '\U{205F}'
    || c == '\U{3000}'
  }

  predicate AllSpace(s: string) {
    forall i :: 0 <= i < |s| ==> IsSpace(s[i])
  }

  /** The first index from `i` on that holds no white space. */
  function SkipSpace(s: string, i: nat): (k: nat)
    requires i <= |s|
    ensures i <= k <= |s|
    ensures forall j :: i <= j < k ==> IsSpace(s[j])
    ensures k < |s| ==> !IsSpace(s[k])
    decreases |s| - i
  {
    if i < |s| && IsSpace(s[i]) then SkipSpace(s, i + 1) else i
  }

  /** The least end of a slice from `lo` that drops only white space before index `i`. */
  function DropSpace(s: string, lo: nat, i: nat): (k: nat)
    requires lo <= i <= |s|
    ensures lo <= k <= i
    ensures forall j :: k <= j < i ==> IsSpace(s[j])
    ensures lo < k ==> !IsSpace(s[k - 1])
  {
    if lo < i && IsSpace(s[i - 1]) then DropSpace(s, lo, i - 1) else i
  }

  /** `strings.TrimSpace`: the longest middle of `s` that neither starts nor ends with white space. */
  function Trim(s: string): (r: string) {
    var lo := SkipSpace(s, 0);
    s[lo..DropSpace(s, lo, |s|)]
  }

  predicate Trimmed(s: string) {
    s == "" || (!IsSpace(s[0]) && !IsSpace(s[|s| - 1]))
  }

  /** `Trim` cuts white space on both sides and nothing else, and what it leaves has none at its ends. */
  lemma TrimSplits(s: string) returns (lo: nat, hi: nat)
    ensures lo <= hi <= |s| && Trim(s) == s[lo..hi]
    ensures AllSpace(s[..lo]) && AllSpace(s[hi..])
    ensures Trimmed(Trim(s))
  {
    lo := SkipSpace(s, 0);
    hi := DropSpace(s, lo, |s|);
  }

  /** The middle that `Trim` finds is the only trimmed one: padding with white space never changes it. */
  lemma TrimPads(left: string, t: string, right: string)
    requires AllSpace(left) && AllSpace(right) && Trimmed(t) && t != ""
    ensures Trim(left + t + right) == t
  {
    var s := left + t + right;
    assert forall j :: 0 <= j < |left| ==> s[j] == left[j];
    assert forall j :: 0 <= j < |t| ==> s[|left| + j] == t[j];
    assert forall j :: 0 <= j < |right| ==> s[|left| + |t| + j] == right[j];
    assert s[|left|] == t[0];
    assert SkipSpace(s, 0) == |left|;
    assert s[|left| + |t| - 1] == t[|t| - 1];
    assert DropSpace(s, |left|, |s|) == |left| + |t|;
    assert s[|left|..|left| + |t|] == t;
  }

  lemma TrimFixed(t: string)
    requires Trimmed(t)
    ensures Trim(t) == t
  {
  }

  /** `value` stands in `s` at index `i`. */
  predicate At(s: string, i: nat, value: string) {
    i + |value| <= |s| && forall p {:trigger s[p]} :: i <= p < i + |value| ==> s[p] == value[p - i]
  }

  lemma AtConcat(s: string, i: nat, a: string, b: string)
    ensures At(s, i, a + b) <==> At(s, i, a) && At(s, i + |a|, b)
  {
  }

  lemma AtSlice(s: string, i: nat, t: string)
    requires At(s, i, t)
    ensures i + |t| <= |s| && s[i..i + |t|] == t
  {
  }

  lemma AtChar(s: string, i: nat, c: char)
    requires At(s, i, [c])
    ensures i < |s| && s[i] == c
  {
  }

  lemma AtWhole(s: string)
    ensures At(s, 0, s)
  {
  }

  /** `strings.ToLower`, for the rune mapping `lower`. */
  function ToLower(lower: char -> char, s: string): (r: string)
    ensures |r| == |s|
  {
    seq(|s|, i requires 0 <= i < |s| => lower(s[i]))
  }

  /** `strings.Compare(a, b) < 0`. */
  predicate LexLess(a: string, b: string) {
    if b == "" then false
    else if a == "" then true
    else a[0] < b[0] || (a[0] == b[0] && LexLess(a[1..], b[1..]))
  }
}
