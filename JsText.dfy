/** The few ECMAScript string operations the order API relies on: the whitespace
    class shared by `\s` and `String.prototype.trim`, `trim` itself, `split` on a
    one-character separator (with `join` as its inverse), and
    `Array.from(new Set(xs))`, which keeps each value of a list once. */
module JsText {

  /** ECMAScript LineTerminator code points: these are what `.` in a regular
      expression refuses to match. */
  predicate IsLineTerminator(c: char) {
    c == '\n' || c == '\r' || c == '\U{2028}' || c == '\U{2029}'
  }

  /** ECMAScript WhiteSpace or LineTerminator: what `\s` matches and `trim` removes. */
  predicate IsWs(c: char) {
    || IsLineTerminator(c)
    || c == '\t' || c == '\U{000B}' || c == '\U{000C}' || c == ' '
    || c == '\U{00A0}' || c == '\U{1680}' || ('\U{2000}' <= c <= '\U{200A}')
    || c == '\U{202F}' || c == '\U{205F}' || c == '\U{3000}' || c == '\U{FEFF}'
  }

  predicate AllWs(s: string) {
    forall i :: 0 <= i < |s| ==> IsWs(s[i])
  }

  predicate NoLineTerminator(s: string) {
    forall i :: 0 <= i < |s| ==> !IsLineTerminator(s[i])
  }

  /** Neither end of `s` is whitespace. */
  predicate IsTrimmed(s: string) {
    s == [] || (!IsWs(s[0]) && !IsWs(s[|s| - 1]))
  }

  /** The first index at or after `i` that does not hold whitespace (or `|s|`). */
  function SkipWs(s: string, i: nat): (j: nat)
    requires i <= |s|
    ensures i <= j <= |s|
    ensures forall m :: i <= m < j ==> IsWs(s[m])
    ensures j < |s| ==> !IsWs(s[j])
    decreases |s| - i
  {
    if i < |s| && IsWs(s[i]) then SkipWs(s, i + 1) else i
  }

  /** The end of `s[lo..j]` once its trailing whitespace is dropped. */
  function BackWs(s: string, lo: nat, j: nat): (k: nat)
    requires lo <= j <= |s|
    ensures lo <= k <= j
    ensures forall m :: k <= m < j ==> IsWs(s[m])
    ensures k > lo ==> !IsWs(s[k - 1])
  {
    if j > lo && IsWs(s[j - 1]) then BackWs(s, lo, j - 1) else j
  }

  /** `String.prototype.trim`. */
  function Trim(s: string): (r: string)
    ensures IsTrimmed(r)
    ensures |r| <= |s|
  {
    var a := SkipWs(s, 0);
    s[a..BackWs(s, a, |s|)]
  }

  /** Any index with whitespace before it and none at it is where the skip stops. */
  lemma SkipWsUnique(s: string, i: nat, j: nat)
    requires i <= j <= |s|
    requires forall m :: i <= m < j ==> IsWs(s[m])
    requires j < |s| ==> !IsWs(s[j])
    ensures SkipWs(s, i) == j
  {
  }

  lemma BackWsUnique(s: string, lo: nat, j: nat, k: nat)
    requires lo <= k <= j <= |s|
    requires forall m :: k <= m < j ==> IsWs(s[m])
    requires k > lo ==> !IsWs(s[k - 1])
    ensures BackWs(s, lo, j) == k
  {
  }

  /** Trimming removes exactly the surrounding whitespace: a trimmed `k` padded on
      both sides with whitespace trims back to `k`. */
  lemma TrimPadded(w1: string, k: string, w2: string)
    requires AllWs(w1) && AllWs(w2) && IsTrimmed(k)
    ensures Trim(w1 + k + w2) == k
  {
    var s := w1 + k + w2;
    if k == [] {
      SkipWsUnique(s, 0, |s|);
    } else {
      var a, b := |w1|, |w1| + |k|;
      assert s[a] == k[0] && s[b - 1] == k[|k| - 1];
      forall m | 0 <= m < a ensures IsWs(s[m]) {
        assert s[m] == w1[m];
      }
      SkipWsUnique(s, 0, a);
      forall m | b <= m < |s| ensures IsWs(s[m]) {
        assert s[m] == w2[m - b];
      }
      BackWsUnique(s, a, |s|, b);
      assert s[a..b] == k;
    }
  }

  /** Every string is its trimmed form padded with whitespace on both sides. */
  lemma TrimSplits(s: string) returns (w1: string, w2: string)
    ensures s == w1 + Trim(s) + w2
    ensures AllWs(w1) && AllWs(w2)
  {
    var a := SkipWs(s, 0);
    var b := BackWs(s, a, |s|);
    w1, w2 := s[..a], s[b..];
    assert s == s[..a] + s[a..b] + s[b..];
  }

  /** Trimming adds no character. */
  lemma TrimCharsFromInput(s: string)
    ensures forall c :: c in Trim(s) ==> c in s
  {
    var a := SkipWs(s, 0);
    var b := BackWs(s, a, |s|);
    forall c | c in Trim(s) ensures c in s {
      var j :| 0 <= j < b - a && s[a..b][j] == c;
      assert s[a + j] == c;
    }
  }

  lemma TrimIdempotent(s: string)
    ensures Trim(Trim(s)) == Trim(s)
  {
    TrimPadded([], Trim(s), []);
    assert [] + Trim(s) + [] == Trim(s);
  }

  /** `trim` yields the empty string exactly when the input is all whitespace. */
  lemma TrimEmptyIff(s: string)
    ensures Trim(s) == [] <==> AllWs(s)
  {
    var a := SkipWs(s, 0);
    var b := BackWs(s, a, |s|);
    if AllWs(s) {
      SkipWsUnique(s, 0, |s|);
    }
    if Trim(s) == [] {
      assert a == |s|;
    }
  }

  /** `s.split(sep)` for a one-character separator: the text between separators,
      always at least one part. */
  function Split(s: string, sep: char): (parts: seq<string>)
    ensures |parts| >= 1
    ensures forall p | p in parts :: sep !in p
  {
    if s == [] then [[]]
    else
      var rest := Split(s[1..], sep);
      if s[0] == sep then [[]] + rest
      else [[s[0]] + rest[0]] + rest[1..]
  }

  /** `parts.join(sep)`. */
  function Join(parts: seq<string>, sep: char): string
    requires |parts| >= 1
  {
    if |parts| == 1 then parts[0] else parts[0] + [sep] + Join(parts[1..], sep)
  }

  /** `split` loses nothing: joining the parts with the separator gives the input back. */
  lemma {:induction false} JoinSplit(s: string, sep: char)
    ensures Join(Split(s, sep), sep) == s
  {
    if s != [] {
      var rest := Split(s[1..], sep);
      JoinSplit(s[1..], sep);
      if s[0] == sep {
        assert Split(s, sep)[1..] == rest;
      } else {
        var parts := Split(s, sep);
        assert parts[1..] == rest[1..];
        if |rest| == 1 {
          assert Join(parts, sep) == [s[0]] + rest[0];
        } else {
          assert Join(rest, sep) == rest[0] + [sep] + Join(rest[1..], sep);
        }
      }
    }
  }

  /** `split` is the only way to cut `s` into separator-free pieces that join back to it. */
  lemma {:induction false} SplitJoin(parts: seq<string>, sep: char)
    requires |parts| >= 1
    requires forall p | p in parts :: sep !in p
    ensures Split(Join(parts, sep), sep) == parts
    decreases |parts|, |parts[0]|
  {
    var s := Join(parts, sep);
    if parts[0] == [] {
      if |parts| > 1 {
        assert s == [sep] + Join(parts[1..], sep);
        assert s[1..] == Join(parts[1..], sep);
        SplitJoin(parts[1..], sep);
        assert [[]] + parts[1..] == parts;
      }
    } else {
      var tail := [parts[0][1..]] + parts[1..];
      assert tail[1..] == parts[1..];
      assert s[1..] == Join(tail, sep) by {
        if |parts| > 1 {
          assert parts[0] == [parts[0][0]] + parts[0][1..];
        }
      }
      assert sep !in tail[0] by { assert parts[0] in parts; }
      SplitJoin(tail, sep);
      assert s[0] == parts[0][0];
      assert s[0] != sep by { assert parts[0] in parts; }
      assert Split(s, sep) == [[s[0]] + tail[0]] + tail[1..];
      assert [s[0]] + tail[0] == parts[0];
      assert [parts[0]] + parts[1..] == parts;
    }
  }

  /** `Array.from(new Set(xs))`: each value of `xs`, once. */
  function Distinct(xs: seq<string>): (ys: seq<string>)
    ensures forall i, j :: 0 <= i < j < |ys| ==> ys[i] != ys[j]
    ensures forall x :: x in ys <==> x in xs
  {
    if xs == [] then []
    else
      var d := Distinct(xs[..|xs| - 1]);
      assert xs == xs[..|xs| - 1] + [xs[|xs| - 1]];
      if xs[|xs| - 1] in d then d else d + [xs[|xs| - 1]]
  }
}
