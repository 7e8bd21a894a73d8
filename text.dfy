/**
 * The few Python `str` and `list` operations the program relies on:
 * `strip()`, `lower()`, `split(sep)`, `sep.join(parts)` and the slice `parts[:n]`.
 */
module Text {

  /** Python's `str.isspace()` for a single character: the characters `strip()` removes. */
  predicate IsSpace(c: char) {
    ('\U{9}' <= c <= '\U{D}') || ('\U{1C}' <= c <= '\U{1F}') || c == ' '
    || c == '\U{85}' || c == '\U{A0}' || c == '\U{1680}'
    || ('\U{2000}' <= c <= '\U{200A}') || c == '\U{2028}' || c == '\U{2029}'
    || c == '\U{202F}' || c == '\U{205F}' || c == '\U{3000}'
  }

  predicate AllSpace(s: string) {
    forall k :: 0 <= k < |s| ==> IsSpace(s[k])
  }

  /** No whitespace at either end: what `strip()` leaves behind. */
  predicate Trimmed(s: string) {
    s == [] || (!IsSpace(s[0]) && !IsSpace(s[|s| - 1]))
  }

  /** The end of the run of whitespace that starts at index `i`. */
  function SpaceRunFrom(s: string, i: nat): (j: nat)
    requires i <= |s|
    ensures i <= j <= |s|
    ensures forall k :: i <= k < j ==> IsSpace(s[k])
    ensures j == |s| || !IsSpace(s[j])
    decreases |s| - i
  {
    if i < |s| && IsSpace(s[i]) then SpaceRunFrom(s, i + 1) else i
  }

  /** The start of the run of whitespace that ends just before index `j`. */
  function SpaceRunBefore(s: string, j: nat): (i: nat)
    requires j <= |s|
    ensures i <= j
    ensures forall k :: i <= k < j ==> IsSpace(s[k])
    ensures i == 0 || !IsSpace(s[i - 1])
  {
    if j > 0 && IsSpace(s[j - 1]) then SpaceRunBefore(s, j - 1) else j
  }

  /** `x` occurs in `m` as a contiguous part. */
  predicate Infix(x: string, m: string) {
    exists i :: 0 <= i <= |m| - |x| && m[i..][..|x|] == x
  }

  /** `r` is `s` with a run of whitespace taken off each end. */
  predicate StrippedFrom(r: string, s: string) {
    exists i :: 0 <= i <= |s| - |r| && s[i..][..|r|] == r && AllSpace(s[..i]) && AllSpace(s[i..][|r|..])
  }

  /**
   * Python `strip()`: the result is the part of `s` between a run of
   * leading and a run of trailing whitespace, and has no whitespace at its ends.
   */
  function Strip(s: string): (r: string)
    ensures Trimmed(r)
    ensures StrippedFrom(r, s)
  {
    var i := SpaceRunFrom(s, 0);
    var j := SpaceRunBefore(s, |s|);
    if j <= i then
      assert AllSpace(s[..|s|]) && s[|s|..][..0] == [];
      []
    else
      assert s[i..][..j - i] == s[i..j];
      assert AllSpace(s[..i]);
      assert AllSpace(s[i..][j - i..]);
      s[i..j]
  }

  /** The contract of `Strip` determines its result: no other trimmed part of `s` has only whitespace around it. */
  lemma StripUnique(r: string, s: string)
    requires Trimmed(r) && StrippedFrom(r, s)
    ensures r == Strip(s)
  {
    var i :| 0 <= i <= |s| - |r| && s[i..][..|r|] == r && AllSpace(s[..i]) && AllSpace(s[i..][|r|..]);
    forall k | 0 <= k < i ensures IsSpace(s[k]) { assert s[..i][k] == s[k]; }
    forall k | i + |r| <= k < |s| ensures IsSpace(s[k]) { assert s[i..][|r|..][k - i - |r|] == s[k]; }
    assert s[i..i + |r|] == r;
    StripBetween(r, s, i);
  }

  /** `r` sits at offset `i` of `s` with only whitespace on either side. */
  lemma StripBetween(r: string, s: string, i: nat)
    requires Trimmed(r) && i + |r| <= |s| && s[i..i + |r|] == r
    requires forall k :: 0 <= k < i ==> IsSpace(s[k])
    requires forall k :: i + |r| <= k < |s| ==> IsSpace(s[k])
    ensures r == Strip(s)
  {
    if r == [] {
      SpaceRunAll(s);
    } else {
      assert s[i] == r[0] && s[i + |r| - 1] == r[|r| - 1];
      SpaceRunFromUnique(s, i);
      SpaceRunBeforeUnique(s, i + |r|);
    }
  }

  lemma SpaceRunAll(s: string)
    requires forall k :: 0 <= k < |s| ==> IsSpace(s[k])
    ensures Strip(s) == []
  {
    assert SpaceRunFrom(s, 0) == |s|;
  }

  /** `i` is where the leading whitespace of `s` ends when `s[i]` is the first non-space. */
  lemma SpaceRunFromUnique(s: string, i: nat)
    requires i < |s| && !IsSpace(s[i])
    requires forall k :: 0 <= k < i ==> IsSpace(s[k])
    ensures SpaceRunFrom(s, 0) == i
  {
  }

  /** `j` is where the trailing whitespace of `s` starts when `s[j - 1]` is the last non-space. */
  lemma SpaceRunBeforeUnique(s: string, j: nat)
    requires 0 < j <= |s| && !IsSpace(s[j - 1])
    requires forall k :: j <= k < |s| ==> IsSpace(s[k])
    ensures SpaceRunBefore(s, |s|) == j
  {
  }

  lemma StripTrimmed(s: string)
    requires Trimmed(s)
    ensures Strip(s) == s
  {
  }

  /** `strip()` is idempotent. */
  lemma StripIdempotent(s: string)
    ensures Strip(Strip(s)) == Strip(s)
  {
    StripTrimmed(Strip(s));
  }

  /** The small letters of `A`..`Z`, in order. */
  const ASCII_SMALL: string := "abcdefghijklmnopqrstuvwxyz"

  /**
   * The small letters of the Latin-1 capitals U+00C0..U+00DE, in order; the
   * multiplication sign U+00D7 has no small letter and keeps its place.
   */
  const LATIN1_SMALL: string :=
    "\U{E0}\U{E1}\U{E2}\U{E3}\U{E4}\U{E5}\U{E6}\U{E7}\U{E8}\U{E9}\U{EA}\U{EB}\U{EC}\U{ED}\U{EE}\U{EF}"
    + "\U{F0}\U{F1}\U{F2}\U{F3}\U{F4}\U{F5}\U{F6}\U{D7}\U{F8}\U{F9}\U{FA}\U{FB}\U{FC}\U{FD}\U{FE}"

  /**
   * Python `lower()` for one character. Only the ASCII and Latin-1 capitals
   * are mapped; every other character is left as it is.
   */
  function LowerChar(c: char): (r: char)
    ensures 'A' <= c <= 'Z' ==> r == ASCII_SMALL[c as int - 'A' as int]
    ensures '\U{C0}' <= c <= '\U{DE}' && c != '\U{D7}' ==> r == LATIN1_SMALL[c as int - 0xC0]
    ensures !('A' <= c <= 'Z') && !('\U{C0}' <= c <= '\U{DE}' && c != '\U{D7}') ==> r == c
    ensures !('A' <= r <= 'Z') && !('\U{C0}' <= r <= '\U{DE}' && r != '\U{D7}')
  {
    if 'A' <= c <= 'Z' || ('\U{C0}' <= c <= '\U{DE}' && c != '\U{D7}') then (c as int + 32) as char else c
  }

  /** Python `lower()`: character by character. */
  function Lower(s: string): (r: string)
    ensures |r| == |s|
    ensures forall i :: 0 <= i < |s| ==> r[i] == LowerChar(s[i])
  {
    seq(|s|, i requires 0 <= i < |s| => LowerChar(s[i]))
  }

  /** `lower()` is idempotent. */
  lemma LowerIdempotent(s: string)
    ensures Lower(Lower(s)) == Lower(s)
  {
  }

  /** Lower-casing neither creates nor removes whitespace: `s` is trimmed exactly when its lower case is. */
  lemma LowerKeepsTrimmed(s: string)
    ensures Trimmed(Lower(s)) <==> Trimmed(s)
  {
    if s != [] {
      assert Lower(s)[0] == LowerChar(s[0]);
      assert Lower(s)[|s| - 1] == LowerChar(s[|s| - 1]);
    }
  }

  /** `strip().lower()`, the normalisation applied to a detected language name. */
  function Normalize(s: string): (r: string)
    ensures Trimmed(r) && Lower(r) == r
    ensures exists t :: StrippedFrom(t, s) && Lower(t) == r
    ensures |r| <= |s|
  {
    LowerKeepsTrimmed(Strip(s));
    LowerIdempotent(Strip(s));
    Lower(Strip(s))
  }

  /** A normalised string is a fixed point of `strip().lower()`. */
  lemma NormalizeIdempotent(s: string)
    ensures Normalize(Normalize(s)) == Normalize(s)
  {
    var t := Strip(s);
    LowerKeepsTrimmed(t);
    StripTrimmed(Lower(t));
    LowerIdempotent(t);
  }

  /**
   * Python `s.split(sep)` with a one-character separator: the pieces between
   * separators, so there is always at least one piece and none holds `sep`.
   */
  function Split(s: string, sep: char): (r: seq<string>)
    ensures |r| >= 1
    ensures forall i :: 0 <= i < |r| ==> sep !in r[i]
  {
    if s == [] then [[]]
    else
      var rest := Split(s[1..], sep);
      if s[0] == sep then [[]] + rest else [[s[0]] + rest[0]] + rest[1..]
  }

  /**
   * Python `sep.join(parts)`: the first piece starts the result, a separator
   * follows it when there is another piece, and a separator is put between
   * every two pieces.
   */
  function Join(parts: seq<string>, sep: char): (r: string)
    ensures |parts| >= 1 ==> parts[0] <= r
    ensures |parts| >= 2 ==> |r| > |parts[0]| && r[|parts[0]|] == sep
    ensures |r| >= |parts| - 1
  {
    if |parts| == 0 then []
    else if |parts| == 1 then parts[0]
    else parts[0] + [sep] + Join(parts[1..], sep)
  }

  /** Joining the pieces of a split gives back the original string. */
  lemma {:induction false} JoinSplit(s: string, sep: char)
    ensures Join(Split(s, sep), sep) == s
  {
    if s != [] {
      var rest := Split(s[1..], sep);
      JoinSplit(s[1..], sep);
      if s[0] == sep {
        assert Split(s, sep) == [[]] + rest;
        assert ([[]] + rest)[1..] == rest;
      } else {
        var parts := Split(s, sep);
        assert parts == [[s[0]] + rest[0]] + rest[1..];
        if |rest| == 1 {
          assert Join(parts, sep) == [s[0]] + rest[0];
        } else {
          assert parts[1..] == rest[1..];
          assert Join(rest, sep) == rest[0] + [sep] + Join(rest[1..], sep);
        }
        assert [s[0]] + s[1..] == s;
      }
    }
  }

  /** Splitting `p + t`, where `p` holds no separator, glues `p` to the first piece of `t`. */
  lemma {:induction false} SplitPrepend(p: string, t: string, sep: char)
    requires sep !in p
    ensures Split(p + t, sep) == [p + Split(t, sep)[0]] + Split(t, sep)[1..]
  {
    if p != [] {
      assert (p + t)[1..] == p[1..] + t;
      assert (p + t)[0] == p[0];
      SplitPrepend(p[1..], t, sep);
      assert [p[0]] + (p[1..] + Split(t, sep)[0]) == p + Split(t, sep)[0];
    } else {
      var q := Split(t, sep);
      assert p + t == t;
      assert p + q[0] == q[0];
      assert [q[0]] + q[1..] == q;
    }
  }

  /** Splitting a join of separator-free pieces gives back the pieces. */
  lemma {:induction false} SplitJoin(parts: seq<string>, sep: char)
    requires |parts| >= 1
    requires forall i :: 0 <= i < |parts| ==> sep !in parts[i]
    ensures Split(Join(parts, sep), sep) == parts
  {
    if |parts| == 1 {
      SplitPrepend(parts[0], [], sep);
      assert parts[0] + [] == parts[0];
    } else {
      var tail := Join(parts[1..], sep);
      SplitJoin(parts[1..], sep);
      assert parts[0] + [sep] + tail == parts[0] + ([sep] + tail);
      SplitPrepend(parts[0], [sep] + tail, sep);
      assert ([sep] + tail)[1..] == tail;
      assert Split([sep] + tail, sep) == [[]] + parts[1..];
      assert parts[0] + [] == parts[0];
    }
  }

  /** Joining a prefix of the pieces gives a prefix of the joined string. */
  lemma {:induction false} JoinPrefix(parts: seq<string>, k: nat, sep: char)
    requires k <= |parts|
    ensures Join(parts[..k], sep) <= Join(parts, sep)
  {
    if k > 0 && |parts| > 1 {
      if k == 1 {
        assert parts[..1] == [parts[0]];
      } else {
        JoinPrefix(parts[1..], k - 1, sep);
        assert parts[..k][1..] == parts[1..][..k - 1];
      }
    }
  }

  function Min(a: int, b: int): int {
    if a <= b then a else b
  }

  /**
   * Python's slice `l[:n]`: the first `n` elements, all of them when `n` is
   * at least the length, and for negative `n` all but the last `-n`.
   */
  function SliceTo<T>(l: seq<T>, n: int): (r: seq<T>)
    ensures r <= l
    ensures n >= 0 ==> |r| == Min(n, |l|)
    ensures n < 0 ==> |r| == if |l| + n >= 0 then |l| + n else 0
  {
    if n >= |l| then l
    else if n >= 0 then l[..n]
    else if |l| + n >= 0 then l[..|l| + n]
    else []
  }
}
