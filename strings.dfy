/**
 * Text helpers shared by the model: splitting on a separator and joining
 * back (the `split`/`join` of Python and JavaScript, which agree for a
 * non-empty separator), and decimal rendering of naturals (`str(n)`).
 */
module Strings {

  /** `sep` occurs in `s` starting at index `i`. */
  predicate OccursAt(s: string, sep: string, i: nat)
  {
    i + |sep| <= |s| && s[i..i + |sep|] == sep
  }

  /** `sep` occurs somewhere in `s`. */
  predicate Occurs(s: string, sep: string)
  {
    exists i: nat | i <= |s| :: OccursAt(s, sep, i)
  }

  /**
   * `s.split(sep)`: the pieces between the non-overlapping occurrences of
   * `sep`, found from left to right. There is always at least one piece.
   */
  function Split(s: string, sep: string): (parts: seq<string>)
    requires |sep| > 0
    ensures |parts| > 0
    decreases |s|
  {
    if |s| < |sep| then [s]
    else if s[..|sep|] == sep then [""] + Split(s[|sep|..], sep)
    else
      var rest := Split(s[1..], sep);
      [[s[0]] + rest[0]] + rest[1..]
  }

  /** `sep.join(parts)`. */
  function Join(parts: seq<string>, sep: string): string
  {
    if |parts| == 0 then ""
    else if |parts| == 1 then parts[0]
    else parts[0] + sep + Join(parts[1..], sep)
  }

  /** Joining longer parts never gives a shorter text. */
  lemma {:induction false} JoinNotShorter(a: seq<string>, b: seq<string>, sep: string)
    requires |a| == |b|
    requires forall k :: 0 <= k < |a| ==> |a[k]| >= |b[k]|
    ensures |Join(a, sep)| >= |Join(b, sep)|
  {
    if |a| > 1 {
      JoinNotShorter(a[1..], b[1..], sep);
    }
  }

  /** Joining parts that are nowhere shorter and somewhere longer gives a longer text. */
  lemma {:induction false} JoinLonger(a: seq<string>, b: seq<string>, sep: string, i: int)
    requires |a| == |b| && 0 <= i < |a|
    requires forall k :: 0 <= k < |a| ==> |a[k]| >= |b[k]|
    requires |a[i]| > |b[i]|
    ensures |Join(a, sep)| > |Join(b, sep)|
  {
    if |a| > 1 {
      if i == 0 {
        JoinNotShorter(a[1..], b[1..], sep);
      } else {
        JoinLonger(a[1..], b[1..], sep, i - 1);
      }
    }
  }

  /** Joining the pieces of a split with the same separator gives back the text. */
  lemma {:induction false} JoinSplit(s: string, sep: string)
    requires |sep| > 0
    ensures Join(Split(s, sep), sep) == s
    decreases |s|
  {
    var parts := Split(s, sep);
    if |s| < |sep| {
    } else if s[..|sep|] == sep {
      var tail := s[|sep|..];
      var rest := Split(tail, sep);
      JoinSplit(tail, sep);
      assert parts == [""] + rest;
      assert parts[1..] == rest;
      calc {
        Join(parts, sep);
        "" + sep + Join(rest, sep);
        sep + tail;
        { assert s == s[..|sep|] + s[|sep|..]; }
        s;
      }
    } else {
      var tail := s[1..];
      var rest := Split(tail, sep);
      JoinSplit(tail, sep);
      var head := [s[0]] + rest[0];
      assert parts == [head] + rest[1..];
      if |rest| == 1 {
        calc {
          Join(parts, sep);
          head;
          [s[0]] + Join(rest, sep);
          [s[0]] + tail;
        }
      } else {
        assert parts[1..] == rest[1..];
        calc {
          Join(parts, sep);
          head + sep + Join(rest[1..], sep);
          [s[0]] + (rest[0] + sep + Join(rest[1..], sep));
          [s[0]] + Join(rest, sep);
          [s[0]] + tail;
        }
      }
      assert [s[0]] + tail == s;
    }
  }

  /** An occurrence in a suffix of `s` is an occurrence in `s`, shifted. */
  lemma OccursShift(s: string, sep: string, d: nat, i: nat)
    requires d <= |s|
    ensures OccursAt(s[d..], sep, i) <==> OccursAt(s, sep, i + d)
  {
    if i + |sep| <= |s| - d {
      assert s[d..][i..i + |sep|] == s[i + d..i + d + |sep|];
    }
  }

  /** There is more than one piece exactly when the separator occurs. */
  lemma {:induction false} SplitCount(s: string, sep: string)
    requires |sep| > 0
    ensures |Split(s, sep)| > 1 <==> Occurs(s, sep)
    decreases |s|
  {
    if |s| < |sep| {
      forall i: nat ensures !OccursAt(s, sep, i) { }
    } else if s[..|sep|] == sep {
      assert OccursAt(s, sep, 0);
    } else {
      SplitCount(s[1..], sep);
      if Occurs(s[1..], sep) {
        var i: nat :| OccursAt(s[1..], sep, i);
        OccursShift(s, sep, 1, i);
      }
      if Occurs(s, sep) {
        var i: nat :| OccursAt(s, sep, i);
        assert i != 0;
        OccursShift(s, sep, 1, i - 1);
      }
    }
  }

  /** Without an occurrence of the separator, the split is the text itself. */
  lemma SplitWhole(s: string, sep: string)
    requires |sep| > 0
    requires !Occurs(s, sep)
    ensures Split(s, sep) == [s]
  {
    SplitCount(s, sep);
    JoinSplit(s, sep);
  }

  /**
   * When the first occurrence of `sep` is at `k`, the first piece is
   * everything before it and the remaining pieces are the split of what
   * follows it.
   */
  lemma {:induction false} SplitFirst(s: string, sep: string, k: nat)
    requires |sep| > 0
    requires OccursAt(s, sep, k)
    requires forall i: nat :: i < k ==> !OccursAt(s, sep, i)
    ensures Split(s, sep) == [s[..k]] + Split(s[k + |sep|..], sep)
    decreases k
  {
    if k == 0 {
    } else {
      assert !OccursAt(s, sep, 0);
      forall i: nat | i < k - 1 ensures !OccursAt(s[1..], sep, i) {
        OccursShift(s, sep, 1, i);
      }
      OccursShift(s, sep, 1, k - 1);
      var rest := Split(s[1..], sep);
      SplitFirst(s[1..], sep, k - 1);
      assert s[1..][k - 1 + |sep|..] == s[k + |sep|..];
      assert Split(s, sep) == [[s[0]] + rest[0]] + rest[1..];
      GlueFirstPiece(s, k, rest, Split(s[k + |sep|..], sep));
    }
  }

  /** Gluing `s[0]` to a first piece `s[1..k]` gives the first piece `s[..k]`. */
  lemma GlueFirstPiece(s: string, k: nat, rest: seq<string>, tail: seq<string>)
    requires 1 <= k <= |s|
    requires rest == [s[1..][..k - 1]] + tail
    ensures [[s[0]] + rest[0]] + rest[1..] == [s[..k]] + tail
  {
    assert [s[0]] + s[1..][..k - 1] == s[..k];
    assert rest[1..] == tail;
  }

  /**
   * The first piece is a prefix of the text before which the separator does
   * not occur; it is the whole text or is followed by the separator.
   */
  lemma {:induction false} SplitHead(s: string, sep: string)
    requires |sep| > 0
    ensures var h := Split(s, sep)[0];
      && |h| <= |s| && s[..|h|] == h
      && (forall i: nat :: i < |h| ==> !OccursAt(s, sep, i))
      && (forall i: nat :: !OccursAt(h, sep, i))
      && (h == s || OccursAt(s, sep, |h|))
    decreases |s|
  {
    var h := Split(s, sep)[0];
    if |s| < |sep| {
      assert h == s;
    } else if s[..|sep|] == sep {
      assert h == "";
      assert OccursAt(s, sep, 0);
    } else {
      var tail := s[1..];
      SplitHead(tail, sep);
      var h' := Split(tail, sep)[0];
      assert h == [s[0]] + h';
      assert s[..|h|] == [s[0]] + tail[..|h'|];
      forall i: nat | i < |h| ensures !OccursAt(s, sep, i) {
        if i > 0 { OccursShift(s, sep, 1, i - 1); }
      }
      if h' != tail {
        OccursShift(s, sep, 1, |h'|);
      } else {
        assert h == s;
      }
    }
    assert s[..|h|] == h;
    assert forall i: nat :: i < |h| ==> !OccursAt(s, sep, i);
    forall i: nat ensures !OccursAt(h, sep, i) {
      if i + |sep| <= |h| {
        assert !OccursAt(s, sep, i);
        assert h[i..i + |sep|] == s[i..i + |sep|];
        assert s[i..i + |sep|] != sep;
      }
    }
  }

  /** The shape SplitLast establishes for the last piece `l` of `s`. */
  predicate LastPieceShape(s: string, sep: string, l: string, single: bool)
  {
    && |l| <= |s| && s[|s| - |l|..] == l
    && (single ==> l == s)
    && (!single ==> |l| + |sep| <= |s| && OccursAt(s, sep, |s| - |l| - |sep|))
  }

  /**
   * The last piece is a suffix of the text; it is the whole text or is
   * preceded by the separator.
   */
  lemma {:induction false} SplitLast(s: string, sep: string)
    requires |sep| > 0
    ensures var p := Split(s, sep); LastPieceShape(s, sep, p[|p| - 1], |p| == 1)
    decreases |s|
  {
    var p := Split(s, sep);
    if |s| < |sep| {
      assert p == [s];
      WholeLastPiece(s, sep);
    } else if s[..|sep|] == sep {
      var q := Split(s[|sep|..], sep);
      SplitLast(s[|sep|..], sep);
      assert p == [""] + q;
      LastPieceAfterSeparator(s, sep, p, q);
    } else {
      var q := Split(s[1..], sep);
      SplitLast(s[1..], sep);
      assert p == [[s[0]] + q[0]] + q[1..];
      LastPieceAfterChar(s, sep, p, q);
    }
  }

  /** The last piece when `s` starts with the separator, from the pieces `q` of the rest. */
  lemma LastPieceAfterSeparator(s: string, sep: string, p: seq<string>, q: seq<string>)
    requires 0 < |sep| <= |s| && s[..|sep|] == sep
    requires |q| > 0 && p == [""] + q
    requires LastPieceShape(s[|sep|..], sep, q[|q| - 1], |q| == 1)
    ensures LastPieceShape(s, sep, p[|p| - 1], |p| == 1)
  {
    assert p[|p| - 1] == q[|q| - 1];
    SplitLastAfterSeparator(s, sep, q[|q| - 1], |q| == 1);
  }

  /** The last piece when `s` does not start with the separator, from the pieces `q` of `s[1..]`. */
  lemma LastPieceAfterChar(s: string, sep: string, p: seq<string>, q: seq<string>)
    requires 1 <= |s|
    requires |q| > 0 && p == [[s[0]] + q[0]] + q[1..]
    requires LastPieceShape(s[1..], sep, q[|q| - 1], |q| == 1)
    ensures LastPieceShape(s, sep, p[|p| - 1], |p| == 1)
  {
    if |q| == 1 {
      assert q[0] == s[1..];
      assert [s[0]] + s[1..] == s;
      assert p == [s];
      WholeLastPiece(s, sep);
    } else {
      assert p[|p| - 1] == q[|q| - 1] && |p| == |q|;
      SplitLastAfterChar(s, sep, q[|q| - 1]);
    }
  }

  lemma WholeLastPiece(s: string, sep: string)
    ensures LastPieceShape(s, sep, s, true)
  {
    assert s[|s| - |s|..] == s;
  }

  lemma SplitLastAfterSeparator(s: string, sep: string, l: string, single: bool)
    requires |sep| <= |s| && s[..|sep|] == sep
    requires LastPieceShape(s[|sep|..], sep, l, single)
    ensures LastPieceShape(s, sep, l, false)
  {
    var tail := s[|sep|..];
    assert s[|s| - |l|..] == tail[|tail| - |l|..];
    if single {
      assert s[|s| - |l| - |sep|..|s| - |l|] == s[..|sep|];
    } else {
      OccursShift(s, sep, |sep|, |tail| - |l| - |sep|);
    }
  }

  lemma SplitLastAfterChar(s: string, sep: string, l: string)
    requires 1 <= |s|
    requires LastPieceShape(s[1..], sep, l, false)
    ensures LastPieceShape(s, sep, l, false)
  {
    var tail := s[1..];
    assert s[|s| - |l|..] == tail[|tail| - |l|..];
    OccursShift(s, sep, 1, |tail| - |l| - |sep|);
  }

  /** The separator occurs in no piece of a split. */
  lemma {:induction false} SplitPiecesFree(s: string, sep: string)
    requires |sep| > 0
    ensures forall k, i: nat :: 0 <= k < |Split(s, sep)| ==> !OccursAt(Split(s, sep)[k], sep, i)
    decreases |s|
  {
    var p := Split(s, sep);
    if |s| < |sep| {
      assert p == [s];
    } else if s[..|sep|] == sep {
      var tail := s[|sep|..];
      SplitPiecesFree(tail, sep);
      assert p == [""] + Split(tail, sep);
    } else {
      var tail := s[1..];
      SplitPiecesFree(tail, sep);
      SplitHead(s, sep);
      var q := Split(tail, sep);
      assert p == [[s[0]] + q[0]] + q[1..];
      forall k, i: nat | 0 <= k < |p| ensures !OccursAt(p[k], sep, i) {
        if k > 0 { assert p[k] == q[k]; }
      }
    }
  }

  /** With a one-character separator, an occurrence is that character. */
  lemma OccursAtChar(s: string, c: char, i: nat)
    ensures OccursAt(s, [c], i) <==> i < |s| && s[i] == c
  {
    if i < |s| { assert s[i..i + 1] == [s[i]]; }
  }

  /**
   * Splitting text joined with a one-character separator gives back the
   * pieces, when no piece contains that character.
   */
  lemma {:induction false} SplitJoinChar(parts: seq<string>, c: char)
    requires |parts| > 0
    requires forall k :: 0 <= k < |parts| ==> c !in parts[k]
    ensures Split(Join(parts, [c]), [c]) == parts
  {
    var p := parts[0];
    if |parts| == 1 {
      forall i: nat | i <= |p| ensures !OccursAt(p, [c], i) {
        OccursAtChar(p, c, i);
        if i < |p| {
          assert p[i] in p;
        }
      }
      SplitWhole(p, [c]);
    } else {
      var rest := parts[1..];
      var s := Join(parts, [c]);
      assert s == p + [c] + Join(rest, [c]);
      OccursAtChar(s, c, |p|);
      forall i: nat | i < |p| ensures !OccursAt(s, [c], i) {
        OccursAtChar(s, c, i);
        assert s[i] == p[i];
        assert p[i] in p;
      }
      SplitFirst(s, [c], |p|);
      assert s[..|p|] == p;
      assert s[|p| + 1..] == Join(rest, [c]);
      SplitJoinChar(rest, c);
    }
  }

  /** The decimal digit for `d`. */
  function DigitChar(d: nat): (c: char)
    requires d < 10
    ensures '0' <= c <= '9' && (c - '0') as nat == d
  {
    "0123456789"[d]
  }

  predicate IsDigits(s: string)
  {
    forall i :: 0 <= i < |s| ==> '0' <= s[i] <= '9'
  }

  /** `str(n)` for a natural number: its decimal digits, without leading zeros. */
  function DecimalString(n: nat): (r: string)
    ensures |r| > 0 && IsDigits(r)
    ensures |r| > 1 ==> r[0] != '0'
  {
    if n < 10 then [DigitChar(n)] else DecimalString(n / 10) + [DigitChar(n % 10)]
  }

  /** The number a string of decimal digits denotes. */
  function DecimalValue(s: string): nat
    requires IsDigits(s)
  {
    if s == [] then 0 else DecimalValue(s[..|s| - 1]) * 10 + (s[|s| - 1] - '0') as nat
  }

  /** Reading back the decimal rendering of `n` gives `n`. */
  lemma {:induction false} DecimalRoundTrip(n: nat)
    ensures DecimalValue(DecimalString(n)) == n
  {
    if n >= 10 {
      DecimalRoundTrip(n / 10);
      var r := DecimalString(n);
      assert r[..|r| - 1] == DecimalString(n / 10);
    }
  }

}
