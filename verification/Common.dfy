/** Types and sequence facts shared by every component of the model. */
module Common {

  datatype Option<+T> = None | Some(value: T)

  /** A clock reading in seconds. Rounding is not modelled. */
  type Time = real

  /** A dictionary lookup with a default. */
  function Get<K, V>(m: map<K, V>, k: K, default: V): V {
    if k in m then m[k] else default
  }

  lemma {:induction false} Regroup<T>(a: seq<T>, b: seq<T>, c: seq<T>)
    ensures a + b + c == a + (b + c)
  {
  }

  lemma {:induction false} SubsetSize<T>(a: set<T>, b: set<T>)
    requires a <= b
    ensures |a| <= |b|
    ensures |a| == |b| ==> a == b
  {
    assert b == a + (b - a);
  }

  /** The stamps strictly later than `cutoff`, in order. */
  function Recent(xs: seq<Time>, cutoff: Time): (r: seq<Time>)
    ensures |r| <= |xs|
  {
    if xs == [] then []
    else
      var last := xs[|xs| - 1];
      var front := Recent(xs[..|xs| - 1], cutoff);
      if last > cutoff then front + [last] else front
  }

  lemma RecentAppend(xs: seq<Time>, t: Time, cutoff: Time)
    ensures Recent(xs + [t], cutoff) == if t > cutoff then Recent(xs, cutoff) + [t] else Recent(xs, cutoff)
  {
    assert (xs + [t])[..|xs|] == xs;
  }

  /** Dropping old stamps and dropping them again later is dropping them once, later. */
  lemma {:induction false} RecentRecent(xs: seq<Time>, early: Time, late: Time)
    requires early <= late
    ensures Recent(Recent(xs, early), late) == Recent(xs, late)
  {
    if xs != [] {
      var front, last := xs[..|xs| - 1], xs[|xs| - 1];
      RecentRecent(front, early, late);
      if last > early {
        RecentAppend(Recent(front, early), last, late);
      }
    }
  }

  /** The stamps of a run of readings of a clock that never goes back. */
  ghost predicate Nondecreasing(xs: seq<Time>) {
    forall i, j | 0 <= i < j < |xs| :: xs[i] <= xs[j]
  }

  /** When the last stamp of an ordered list has expired, all have. */
  lemma {:induction false} RecentEmpty(xs: seq<Time>, cutoff: Time)
    requires Nondecreasing(xs)
    requires xs == [] || xs[|xs| - 1] <= cutoff
    ensures Recent(xs, cutoff) == []
  {
    if |xs| > 1 {
      RecentEmpty(xs[..|xs| - 1], cutoff);
    }
  }
}

/** Strings: surrounding whitespace, as `str.strip` sees it, and the order of code points. */
module Text {
  import opened Common

  predicate IsSpace(c: char) {
    var n := c as int;
    || 9 <= n <= 13 || 28 <= n <= 32 || n == 0x85 || n == 0xa0 || n == 0x1680
    || 0x2000 <= n <= 0x200a || n == 0x2028 || n == 0x2029 || n == 0x202f || n == 0x205f || n == 0x3000
  }

  function StripLeft(s: string): (r: string)
    ensures |r| <= |s|
  {
    if s != [] && IsSpace(s[0]) then StripLeft(s[1..]) else s
  }

  function StripRight(s: string): (r: string)
    ensures |r| <= |s|
  {
    if s != [] && IsSpace(s[|s| - 1]) then StripRight(s[..|s| - 1]) else s
  }

  function Strip(s: string): string {
    StripRight(StripLeft(s))
  }

  /** The order of strings, character by character. */
  predicate Less(a: string, b: string)
    decreases |a|
  {
    b != [] && (a == [] || a[0] < b[0] || (a[0] == b[0] && Less(a[1..], b[1..])))
  }

  lemma {:induction false} LessIrreflexive(a: string)
    ensures !Less(a, a)
    decreases |a|
  {
    if a != [] {
      LessIrreflexive(a[1..]);
    }
  }

  lemma {:induction false} LessTransitive(a: string, b: string, c: string)
    requires Less(a, b) && Less(b, c)
    ensures Less(a, c)
    decreases |a|
  {
    if a != [] && a[0] == b[0] && b[0] == c[0] {
      LessTransitive(a[1..], b[1..], c[1..]);
    }
  }

  lemma {:induction false} LessTotal(a: string, b: string)
    ensures Less(a, b) || a == b || Less(b, a)
    decreases |a|
  {
    if a != [] && b != [] && a[0] == b[0] {
      LessTotal(a[1..], b[1..]);
      if a[1..] == b[1..] {
        assert a == [a[0]] + a[1..] == [b[0]] + b[1..] == b;
      }
    }
  }

  /** The strings agree up to place `k`, where `a` ends first or has the smaller character. */
  ghost predicate SmallerAt(a: string, b: string, k: nat) {
    && k <= |a| && k < |b| && a[..k] == b[..k]
    && (k == |a| || a[k] < b[k])
  }

  lemma {:induction false} HeadsAgree(a: string, b: string, k: nat)
    requires SmallerAt(a, b, k) && k > 0
    ensures a != [] && b != [] && a[0] == b[0]
  {
    assert a[..k][0] == b[..k][0];
  }

  /** The order is the usual one of strings: the first difference decides, and a prefix comes
      before what it is a prefix of. */
  lemma {:induction false} LessIff(a: string, b: string)
    ensures Less(a, b) <==> exists k: nat :: SmallerAt(a, b, k)
    decreases |a|
  {
    if a == [] || b == [] || a[0] != b[0] {
      assert b != [] && (a == [] || a[0] < b[0]) ==> SmallerAt(a, b, 0);
      forall k: nat | SmallerAt(a, b, k) ensures k == 0 {
        if k > 0 {
          HeadsAgree(a, b, k);
        }
      }
    } else {
      LessIff(a[1..], b[1..]);
      if k: nat :| SmallerAt(a[1..], b[1..], k) {
        assert a[..k + 1] == [a[0]] + a[1..][..k] && b[..k + 1] == [b[0]] + b[1..][..k];
        assert SmallerAt(a, b, k + 1);
      }
      if k: nat :| SmallerAt(a, b, k) {
        assert k > 0;
        assert a[1..][..k - 1] == a[..k][1..] && b[1..][..k - 1] == b[..k][1..];
        assert SmallerAt(a[1..], b[1..], k - 1);
      }
    }
  }

  /** The whitespace of Unicode and the four separators of ASCII, by their code points. */
  lemma {:induction false} SpacesAre(c: char)
    ensures IsSpace(c) <==> c as int in {
      0x9, 0xa, 0xb, 0xc, 0xd, 0x1c, 0x1d, 0x1e, 0x1f, 0x20, 0x85, 0xa0, 0x1680, 0x2000, 0x2001, 0x2002, 0x2003, 0x2004,
      0x2005, 0x2006, 0x2007, 0x2008, 0x2009, 0x200a, 0x2028, 0x2029, 0x202f, 0x205f, 0x3000}
  {
  }

  predicate AllSpace(s: string) {
    forall i | 0 <= i < |s| :: IsSpace(s[i])
  }

  /** Stripping takes away whitespace at both ends, all of it, and nothing else. */
  lemma {:induction false} StripMeans(s: string) returns (left: string, right: string)
    ensures s == left + Strip(s) + right && AllSpace(left) && AllSpace(right)
    ensures Strip(s) != [] ==> !IsSpace(Strip(s)[0]) && !IsSpace(Strip(s)[|Strip(s)| - 1])
  {
    left := StripLeftMeans(s);
    right := StripRightMeans(StripLeft(s));
    Regroup(left, Strip(s), right);
    assert Strip(s) != [] ==> Strip(s)[0] == (Strip(s) + right)[0];
  }

  lemma {:induction false} StripLeftMeans(s: string) returns (left: string)
    ensures s == left + StripLeft(s) && AllSpace(left)
    ensures StripLeft(s) != [] ==> !IsSpace(StripLeft(s)[0])
  {
    if s != [] && IsSpace(s[0]) {
      var rest := StripLeftMeans(s[1..]);
      left := [s[0]] + rest;
    } else {
      left := [];
    }
  }

  lemma {:induction false} StripRightMeans(s: string) returns (right: string)
    ensures s == StripRight(s) + right && AllSpace(right)
    ensures StripRight(s) != [] ==> !IsSpace(StripRight(s)[|StripRight(s)| - 1])
  {
    var n := |s| - 1;
    if s != [] && IsSpace(s[n]) {
      var rest := StripRightMeans(s[..n]);
      right := rest + [s[n]];
      Regroup(StripRight(s), rest, [s[n]]);
    } else {
      right := [];
    }
  }
}
