/** Values and string operations shared by every relay variant: optional and
    failure-carrying results, bytes, Python's substring test and lower-casing,
    decimal rendering of integers, and `str.split` / `str.join` on a separator. */
module Text {

  datatype Option<T> = None | Some(value: T)

  datatype Result<T, E> = Ok(value: T) | Err(error: E)

  /** One octet of an HTTP body. */
  type Byte = b: int | 0 <= b < 256

  /** `pat` occurs in `s` starting at index `i`. */
  predicate HasAt<T(==)>(s: seq<T>, pat: seq<T>, i: int)
  {
    0 <= i && i + |pat| <= |s| && s[i..i + |pat|] == pat
  }

  /** Python's `sub in s` for strings and byte strings. */
  predicate Contains<T(==)>(s: seq<T>, sub: seq<T>)
  {
    exists i | 0 <= i <= |s| - |sub| :: HasAt(s, sub, i)
  }

  lemma ContainsPrefix<T>(s: seq<T>, p: seq<T>, t: seq<T>)
    requires s == p + t
    ensures Contains(s, p)
  {
    assert s[0..|p|] == p;
    assert HasAt(s, p, 0);
  }

  lemma ContainsInside<T>(s: seq<T>, a: seq<T>, p: seq<T>, b: seq<T>)
    requires s == a + p + b
    ensures Contains(s, p)
  {
    assert s[|a|..|a| + |p|] == p;
    assert HasAt(s, p, |a|);
  }

  /** Case folding of ASCII letters; `str.lower()` also folds letters
      beyond ASCII, which this does not. */
  function LowerChar(c: char): char
  {
    if 'A' <= c <= 'Z' then (c as int + 32) as char else c
  }

  function Lower(s: string): (r: string)
    ensures |r| == |s|
    ensures forall i :: 0 <= i < |s| ==> r[i] == LowerChar(s[i])
  {
    seq(|s|, i requires 0 <= i < |s| => LowerChar(s[i]))
  }

  function DigitChar(d: nat): (c: char)
    requires d < 10
    ensures '0' <= c <= '9'
  {
    ('0' as int + d) as char
  }

  /** Python's `str(n)` for a non-negative integer. */
  function NatToString(n: nat): (r: string)
    ensures 1 <= |r|
    ensures forall k :: 0 <= k < |r| ==> '0' <= r[k] <= '9'
    ensures n < 10 <==> |r| == 1
  {
    if n < 10 then [DigitChar(n)] else NatToString(n / 10) + [DigitChar(n % 10)]
  }

  /** Python's `str(i)` for any integer. */
  function IntToString(i: int): string
  {
    if i < 0 then "-" + NatToString(-i) else NatToString(i)
  }

  /** Distinct numbers render as distinct decimal strings. */
  lemma {:induction false} NatToStringInjective(a: nat, b: nat)
    requires NatToString(a) == NatToString(b)
    ensures a == b
  {
    var sa, sb := NatToString(a), NatToString(b);
    if a < 10 || b < 10 {
      assert |sa| == 1 && |sb| == 1;
      assert a < 10 && b < 10;
      assert sa[0] == DigitChar(a) && sb[0] == DigitChar(b);
    } else {
      assert sa[..|sa| - 1] == NatToString(a / 10);
      assert sb[..|sb| - 1] == NatToString(b / 10);
      NatToStringInjective(a / 10, b / 10);
      assert sa[|sa| - 1] == DigitChar(a % 10);
      assert sb[|sb| - 1] == DigitChar(b % 10);
    }
  }

  /** Python's `s.split(sep)` for a one-character separator: every occurrence
      splits, empty pieces are kept, and there is always at least one piece. */
  function Split(s: string, sep: char): (r: seq<string>)
    ensures |r| >= 1
    ensures forall k :: 0 <= k < |r| ==> sep !in r[k]
  {
    if |s| == 0 then [""]
    else if s[0] == sep then [""] + Split(s[1..], sep)
    else
      var rest := Split(s[1..], sep);
      [[s[0]] + rest[0]] + rest[1..]
  }

  /** Python's `sep.join(parts)`. */
  function Join(parts: seq<string>, sep: string): string
  {
    if |parts| == 0 then ""
    else if |parts| == 1 then parts[0]
    else parts[0] + sep + Join(parts[1..], sep)
  }

  /** Splitting and joining again on the same separator gives back the string. */
  lemma {:induction false} JoinSplit(s: string, sep: char)
    ensures Join(Split(s, sep), [sep]) == s
  {
    if |s| == 0 {
    } else if s[0] == sep {
      JoinSplit(s[1..], sep);
      var rest := Split(s[1..], sep);
      assert Split(s, sep) == [""] + rest;
      assert ([""] + rest)[1..] == rest;
      assert s == [sep] + s[1..];
    } else {
      JoinSplit(s[1..], sep);
      var rest := Split(s[1..], sep);
      var parts := [[s[0]] + rest[0]] + rest[1..];
      assert Split(s, sep) == parts;
      assert parts[1..] == rest[1..];
      if |rest| == 1 {
        assert s == [s[0]] + s[1..];
      } else {
        assert Join(rest, [sep]) == rest[0] + [sep] + Join(rest[1..], [sep]);
        assert s == [s[0]] + s[1..];
      }
    }
  }

  /** Joining pieces free of the separator and splitting again gives back the pieces. */
  lemma {:induction false} SplitJoin(parts: seq<string>, sep: char)
    requires |parts| >= 1
    requires forall k :: 0 <= k < |parts| ==> sep !in parts[k]
    ensures Split(Join(parts, [sep]), sep) == parts
  {
    if |parts| == 1 {
      SplitNoSeparator(parts[0], sep);
    } else {
      SplitJoin(parts[1..], sep);
      SplitPieceThenSeparator(parts[0], Join(parts[1..], [sep]), sep);
      assert [parts[0]] + parts[1..] == parts;
    }
  }

  lemma {:induction false} SplitNoSeparator(s: string, sep: char)
    requires sep !in s
    ensures Split(s, sep) == [s]
  {
    if |s| > 0 {
      SplitNoSeparator(s[1..], sep);
      assert [s[0]] + s[1..] == s;
    }
  }

  lemma {:induction false} SplitPieceThenSeparator(p: string, t: string, sep: char)
    requires sep !in p
    ensures Split(p + [sep] + t, sep) == [p] + Split(t, sep)
  {
    if |p| == 0 {
      assert p + [sep] + t == [sep] + t;
      assert ([sep] + t)[1..] == t;
    } else {
      assert (p + [sep] + t)[1..] == p[1..] + [sep] + t;
      SplitPieceThenSeparator(p[1..], t, sep);
      assert [p[0]] + p[1..] == p;
    }
  }

  /** Joining all but the last piece, then the separator and the last piece,
      is joining all of them. */
  lemma {:induction false} JoinDropLast(parts: seq<string>, sep: string)
    requires |parts| >= 2
    ensures Join(parts[..|parts| - 1], sep) + sep + parts[|parts| - 1] == Join(parts, sep)
  {
    if |parts| == 2 {
      assert parts[..1] == [parts[0]];
    } else {
      var tail := parts[1..];
      JoinDropLast(tail, sep);
      assert parts[..|parts| - 1][1..] == tail[..|tail| - 1];
      assert tail[|tail| - 1] == parts[|parts| - 1];
    }
  }

  /** Every joined piece occurs in the joined string. */
  lemma {:induction false} JoinContains(parts: seq<string>, sep: string, k: nat)
    requires k < |parts|
    ensures Contains(Join(parts, sep), parts[k])
  {
    if |parts| == 1 {
      ContainsPrefix(parts[0], parts[0], []);
    } else if k == 0 {
      ContainsPrefix(Join(parts, sep), parts[0], sep + Join(parts[1..], sep));
    } else {
      JoinContains(parts[1..], sep, k - 1);
      var j := Join(parts[1..], sep);
      var i :| 0 <= i <= |j| - |parts[k]| && HasAt(j, parts[k], i);
      var whole := Join(parts, sep);
      var off := |parts[0]| + |sep|;
      assert whole == parts[0] + sep + j;
      assert whole[off + i..off + i + |parts[k]|] == j[i..i + |parts[k]|];
      assert HasAt(whole, parts[k], off + i);
    }
  }

  /** `a` is a suffix of `b`. */
  predicate SuffixOf<T(==)>(a: seq<T>, b: seq<T>)
  {
    |a| <= |b| && a == b[|b| - |a|..]
  }

  lemma SuffixExtend<T>(a: seq<T>, b: seq<T>, x: seq<T>)
    requires SuffixOf(a, b)
    ensures SuffixOf(a + x, b + x)
  {
    assert (b + x)[|b + x| - |a + x|..] == b[|b| - |a|..] + x;
  }

  lemma SuffixTrans<T>(a: seq<T>, b: seq<T>, c: seq<T>)
    requires SuffixOf(a, b) && SuffixOf(b, c)
    ensures SuffixOf(a, c)
  {
    assert c[|c| - |a|..] == c[|c| - |b|..][|b| - |a|..];
  }
}
