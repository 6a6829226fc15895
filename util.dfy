/**
 * Small helpers that give Python's string, slicing and formatting operations
 * a precise meaning, so that the modules modelling the scripts can use them.
 */
module Util {

  datatype Option<T> = None | Some(value: T)

  // ---------------------------------------------------------------------------
  // Sequences
  // ---------------------------------------------------------------------------

  /** The elements of `s` that satisfy `p`, in order (a Python list comprehension with an `if`). */
  function Filter<T>(s: seq<T>, p: T -> bool): (r: seq<T>)
    ensures |r| <= |s|
    ensures forall i :: 0 <= i < |r| ==> r[i] in s
    ensures forall i :: 0 <= i < |s| && p(s[i]) ==> s[i] in r
    ensures forall i :: 0 <= i < |r| ==> p(r[i])
  {
    if s == [] then [] else (if p(s[0]) then [s[0]] else []) + Filter(s[1..], p)
  }

  lemma {:induction false} FilterAppend<T>(a: seq<T>, b: seq<T>, p: T -> bool)
    ensures Filter(a + b, p) == Filter(a, p) + Filter(b, p)
  {
    if a == [] {
      assert a + b == b;
    } else {
      assert (a + b)[1..] == a[1..] + b;
      FilterAppend(a[1..], b, p);
    }
  }

  /** All elements of `s` satisfy `p`: filtering keeps everything. */
  lemma {:induction false} FilterAll<T>(s: seq<T>, p: T -> bool)
    requires forall i :: 0 <= i < |s| ==> p(s[i])
    ensures Filter(s, p) == s
  {
    if s != [] {
      FilterAll(s[1..], p);
    }
  }

  /** Python's `s[i:j]` for integers of either sign: negative positions count from the end, then clamp. */
  function PyIndex(i: int, n: nat): (k: nat)
    ensures k <= n
    ensures 0 <= i <= n ==> k == i
  {
    if i < 0 then (if n + i < 0 then 0 else n + i) else if i > n then n else i
  }

  function PySlice<T>(s: seq<T>, i: int, j: int): (r: seq<T>)
    ensures |r| <= |s|
    ensures 0 <= i <= j <= |s| ==> r == s[i..j]
  {
    var a := PyIndex(i, |s|);
    var b := PyIndex(j, |s|);
    if a <= b then s[a..b] else []
  }

  /** Python's `s[:n]` for `n >= 0`. */
  function Take<T>(s: seq<T>, n: nat): (r: seq<T>)
    ensures |r| == if n <= |s| then n else |s|
    ensures r <= s
  {
    if n <= |s| then s[..n] else s
  }

  lemma PrefixSnoc<T>(s: seq<T>, k: nat)
    requires k < |s|
    ensures s[..k + 1][..k] == s[..k] && s[..k + 1] == s[..k] + [s[k]]
  {
  }

  /** The concatenation of a sequence of sequences, in order (rows accumulated by nested loops). */
  function Flatten<T>(ss: seq<seq<T>>): seq<T>
  {
    if ss == [] then [] else Flatten(ss[..|ss| - 1]) + ss[|ss| - 1]
  }

  lemma FlattenSnoc<T>(ss: seq<seq<T>>, k: nat)
    requires k < |ss|
    ensures Flatten(ss[..k + 1]) == Flatten(ss[..k]) + ss[k]
  {
    assert ss[..k + 1][..k] == ss[..k];
  }

  /** Appending part `k` to the concatenation of the parts before it. */
  lemma FlattenStep<T>(parts: seq<seq<T>>, k: nat, rows: seq<T>, part: seq<T>)
    requires k < |parts| && rows == Flatten(parts[..k]) && part == parts[k]
    ensures rows + part == Flatten(parts[..k + 1])
  {
    FlattenSnoc(parts, k);
  }

  /** An element of a concatenation comes from one of the parts, and every element of
      every part is in the concatenation. */
  lemma {:induction false} FlattenIn<T>(ss: seq<seq<T>>, x: T)
    ensures x in Flatten(ss) <==> exists i :: 0 <= i < |ss| && x in ss[i]
  {
    if ss != [] {
      var init := ss[..|ss| - 1];
      FlattenIn(init, x);
      if x in Flatten(init) {
        var i :| 0 <= i < |init| && x in init[i];
        assert ss[i] == init[i];
      }
      if exists i :: 0 <= i < |ss| && x in ss[i] {
        var i :| 0 <= i < |ss| && x in ss[i];
        if i < |ss| - 1 {
          assert init[i] == ss[i];
        }
      }
    }
  }

  // ---------------------------------------------------------------------------
  // Strings
  // ---------------------------------------------------------------------------

  /** Python's `s.startswith(p)`. */
  predicate StartsWith(s: string, p: string)
  {
    |p| <= |s| && s[..|p|] == p
  }

  /** Python's `s.endswith(p)`. */
  predicate EndsWith(s: string, p: string)
  {
    |p| <= |s| && s[|s| - |p|..] == p
  }

  /** Python's `sub in s`. */
  predicate Contains(s: string, sub: string)
    decreases |s|
  {
    StartsWith(s, sub) || (|s| > 0 && Contains(s[1..], sub))
  }

  lemma {:induction false} ContainsSelf(s: string)
    ensures Contains(s, s)
  {
    assert s[..|s|] == s;
  }

  /** A string that occurs in `s` occurs in every string that has `s` inside it. */
  lemma {:induction false} ContainsInfix(pre: string, s: string, post: string, sub: string)
    requires Contains(s, sub)
    ensures Contains(pre + s + post, sub)
  {
    if pre == [] {
      ContainsPrefixOf(s, post, sub);
      assert pre + s + post == s + post;
    } else {
      ContainsInfix(pre[1..], s, post, sub);
      assert (pre + s + post)[1..] == pre[1..] + s + post;
    }
  }

  lemma {:induction false} ContainsPrefixOf(s: string, post: string, sub: string)
    requires Contains(s, sub)
    ensures Contains(s + post, sub)
    decreases |s|
  {
    if StartsWith(s, sub) {
      assert (s + post)[..|sub|] == s[..|sub|];
    } else {
      ContainsPrefixOf(s[1..], post, sub);
      assert (s + post)[1..] == s[1..] + post;
    }
  }

  function LowerChar(c: char): char
  {
    if 'A' <= c <= 'Z' then (c as int + 32) as char else c
  }

  /** Python's `s.lower()` on ASCII letters. */
  function Lower(s: string): (r: string)
    ensures |r| == |s|
    ensures forall i :: 0 <= i < |s| ==> r[i] == LowerChar(s[i])
  {
    seq(|s|, i requires 0 <= i < |s| => LowerChar(s[i]))
  }

  /** Python's `' '.join(parts)`. */
  function JoinSpace(parts: seq<string>): string
  {
    if |parts| == 0 then ""
    else if |parts| == 1 then parts[0]
    else parts[0] + " " + JoinSpace(parts[1..])
  }

  /** A part of a space-joined string is inside the joined string. */
  lemma {:induction false} JoinSpaceContainsPart(parts: seq<string>, k: nat, sub: string)
    requires k < |parts| && Contains(parts[k], sub)
    ensures Contains(JoinSpace(parts), sub)
  {
    if |parts| == 1 {
    } else if k == 0 {
      ContainsInfix([], parts[0], " " + JoinSpace(parts[1..]), sub);
      assert [] + parts[0] + (" " + JoinSpace(parts[1..])) == JoinSpace(parts);
    } else {
      JoinSpaceContainsPart(parts[1..], k - 1, sub);
      ContainsInfix(parts[0] + " ", JoinSpace(parts[1..]), [], sub);
      assert parts[0] + " " + JoinSpace(parts[1..]) + [] == JoinSpace(parts);
    }
  }

  /** The characters Python's `str.isspace()` accepts. */
  predicate IsSpace(c: char)
  {
    var n := c as int;
    (0x09 <= n <= 0x0d) || (0x1c <= n <= 0x20) || n == 0x85 || n == 0xa0 || n == 0x1680
    || (0x2000 <= n <= 0x200a) || n == 0x2028 || n == 0x2029 || n == 0x202f || n == 0x205f
    || n == 0x3000
  }

  /** Every character of `s` outside positions `i..j-1` is whitespace. */
  predicate SpaceOutside(s: string, i: nat, j: nat)
  {
    forall k :: 0 <= k < |s| && (k < i || j <= k) ==> IsSpace(s[k])
  }

  /** Python's `s.lstrip()`: the leading whitespace removed. */
  function StripLeft(s: string): (r: string)
    ensures r == [] || !IsSpace(r[0])
    ensures |r| <= |s| && s[|s| - |r|..] == r
    ensures forall k :: 0 <= k < |s| - |r| ==> IsSpace(s[k])
  {
    if s != [] && IsSpace(s[0]) then StripLeft(s[1..]) else s
  }

  /** Python's `s.rstrip()`: the trailing whitespace removed. */
  function StripRight(s: string): (r: string)
    ensures r == [] || !IsSpace(r[|r| - 1])
    ensures |r| <= |s| && s[..|r|] == r
    ensures forall k :: |r| <= k < |s| ==> IsSpace(s[k])
  {
    if s != [] && IsSpace(s[|s| - 1]) then StripRight(s[..|s| - 1]) else s
  }

  /** Python's `s.strip()`: a slice of `s` with only whitespace outside it, and
      neither end of it whitespace. */
  function Strip(s: string): (r: string)
    ensures r == [] || (!IsSpace(r[0]) && !IsSpace(r[|r| - 1]))
    ensures exists i: nat, j: nat :: i <= j <= |s| && r == s[i..j] && SpaceOutside(s, i, j)
  {
    var l := StripLeft(s);
    var r := StripRight(l);
    var i := |s| - |l|;
    assert r == s[i..i + |r|];
    assert SpaceOutside(s, i, i + |r|) by {
      forall k | 0 <= k < |s| && i + |r| <= k ensures IsSpace(s[k]) {
        assert s[k] == l[k - i];
      }
    }
    r
  }

  function Digit(d: nat): char
    requires d < 10
  {
    ('0' as int + d) as char
  }

  /** Python's `str(n)` for a natural number. */
  function Dec(n: nat): (r: string)
    ensures |r| >= 1
    ensures n < 10 <==> |r| == 1
    ensures n < 100 ==> |r| <= 2
    ensures n < 1000 ==> |r| <= 3
    ensures forall i :: 0 <= i < |r| ==> '0' <= r[i] <= '9'
  {
    if n < 10 then [Digit(n)] else Dec(n / 10) + [Digit(n % 10)]
  }

  /** Different numbers have different decimal representations. */
  lemma {:induction false} DecInjective(a: nat, b: nat)
    requires Dec(a) == Dec(b)
    ensures a == b
  {
    if a >= 10 && b >= 10 {
      var da, db := Dec(a), Dec(b);
      assert da[..|da| - 1] == Dec(a / 10);
      assert db[..|db| - 1] == Dec(b / 10);
      DecInjective(a / 10, b / 10);
      assert da[|da| - 1] == Digit(a % 10);
      assert db[|db| - 1] == Digit(b % 10);
    }
  }

  function Zeros(n: nat): (r: string)
    ensures |r| == n
  {
    seq(n, _ => '0')
  }

  function ZeroPad(s: string, width: nat): (r: string)
    ensures |r| == if |s| < width then width else |s|
  {
    if |s| < width then Zeros(width - |s|) + s else s
  }

  /** Python's `f"{n:03d}"`: zero-padded to width 3, the sign counting towards the width. */
  function Pad03(n: int): (r: string)
    ensures |r| >= 3
    ensures 0 <= n < 1000 ==> |r| == 3
  {
    if n >= 0 then ZeroPad(Dec(n), 3) else "-" + ZeroPad(Dec(-n), 2)
  }

  /** Below 1000 the padded form is exactly three digits. */
  lemma Pad03Digits(n: nat)
    requires n < 1000
    ensures Pad03(n) == [Digit(n / 100), Digit(n / 10 % 10), Digit(n % 10)]
  {
    if n >= 100 {
      assert Dec(n / 10) == Dec(n / 100) + [Digit(n / 10 % 10)];
    } else if n >= 10 {
      assert Dec(n) == [Digit(n / 10)] + [Digit(n % 10)];
    }
  }

  /** From 1000 on the padded form is the plain decimal, at least four digits long. */
  lemma Pad03Large(n: nat)
    requires n >= 1000
    ensures Pad03(n) == Dec(n) && |Pad03(n)| >= 4
  {
    assert |Dec(n / 10)| >= 3 by {
      assert |Dec(n / 100)| >= 2;
    }
  }

  /** Different natural numbers have different padded forms. */
  lemma Pad03Injective(a: nat, b: nat)
    requires Pad03(a) == Pad03(b)
    ensures a == b
  {
    if a < 1000 && b < 1000 {
      Pad03Digits(a);
      Pad03Digits(b);
      assert Pad03(a)[0] == Pad03(b)[0] && Pad03(a)[1] == Pad03(b)[1] && Pad03(a)[2] == Pad03(b)[2];
      ThreeDigitsInjective(a, b);
    } else if a >= 1000 && b >= 1000 {
      Pad03Large(a);
      Pad03Large(b);
      DecInjective(a, b);
    } else if a >= 1000 {
      Pad03Large(a);
    } else {
      Pad03Large(b);
    }
  }

  /** Two numbers below 1000 with the same three digits are equal. */
  lemma ThreeDigitsInjective(a: nat, b: nat)
    requires a < 1000 && b < 1000
    requires Digit(a / 100) == Digit(b / 100) && Digit(a / 10 % 10) == Digit(b / 10 % 10)
    requires Digit(a % 10) == Digit(b % 10)
    ensures a == b
  {
    assert a / 100 == b / 100 && a / 10 % 10 == b / 10 % 10 && a % 10 == b % 10;
    assert a / 10 == 10 * (a / 100) + a / 10 % 10;
    assert b / 10 == 10 * (b / 100) + b / 10 % 10;
  }

  /** Index of the last occurrence of `c` in `s`, or -1. */
  function RFind(s: string, c: char): (k: int)
    ensures -1 <= k < |s|
    ensures k >= 0 ==> s[k] == c
    ensures forall i :: k < i < |s| ==> s[i] != c
  {
    if s == [] then -1
    else if s[|s| - 1] == c then |s| - 1
    else RFind(s[..|s| - 1], c)
  }

  /** Whether `s[lo..hi]` holds a character other than '.'. */
  predicate HasNonDot(s: string, lo: nat, hi: nat)
    requires lo <= hi <= |s|
  {
    exists i :: lo <= i < hi && s[i] != '.'
  }

  /**
   * Python's `os.path.splitext(p)` with '/' as separator: the extension starts
   * at the last dot of the last path component, unless everything before that
   * dot in the component is dots (a leading-dot name has no extension).
   */
  function Splitext(p: string): (r: (string, string))
    ensures r.0 + r.1 == p
    ensures r.1 == [] || r.1[0] == '.'
  {
    var sep := RFind(p, '/');
    var dot := RFind(p, '.');
    if dot > sep && HasNonDot(p, sep + 1, dot) then (p[..dot], p[dot..]) else (p, [])
  }

  /** A name `stem + ext` whose extension has no further dot and whose stem has a non-dot
      character after its last '/' splits back into `stem` and `ext`. */
  lemma SplitextOfStem(stem: string, ext: string)
    requires |ext| >= 1 && ext[0] == '.'
    requires forall i :: 1 <= i < |ext| ==> ext[i] != '.' && ext[i] != '/'
    requires HasNonDot(stem, RFind(stem, '/') + 1, |stem|)
    ensures Splitext(stem + ext) == (stem, ext)
  {
    var p := stem + ext;
    var dot := |stem|;
    assert p[dot] == '.';
    RFindSuffix(stem, ext, '.');
    RFindSuffix(stem, ext, '/');
    assert RFind(p, '.') == dot;
    var sep := RFind(stem, '/');
    assert RFind(p, '/') == sep;
    var i :| sep + 1 <= i < |stem| && stem[i] != '.';
    assert p[i] == stem[i];
    assert HasNonDot(p, sep + 1, dot);
    assert p[..dot] == stem && p[dot..] == ext;
  }

  lemma {:induction false} RFindSuffix(stem: string, ext: string, c: char)
    requires |ext| >= 1
    requires forall i :: 1 <= i < |ext| ==> ext[i] != c
    ensures RFind(stem + ext, c) == if ext[0] == c then |stem| else RFind(stem, c)
    decreases |ext|
  {
    var p := stem + ext;
    if |ext| == 1 {
      assert p[..|p| - 1] == stem;
    } else {
      assert p[|p| - 1] == ext[|ext| - 1];
      assert p[..|p| - 1] == stem + ext[..|ext| - 1];
      RFindSuffix(stem, ext[..|ext| - 1], c);
    }
  }

  // ---------------------------------------------------------------------------
  // Python dictionaries: insertion-ordered, unique keys
  // ---------------------------------------------------------------------------

  datatype Entry<K, V> = Entry(key: K, val: V)

  function Keys<K, V>(d: seq<Entry<K, V>>): (ks: seq<K>)
    ensures |ks| == |d|
    ensures forall i :: 0 <= i < |d| ==> ks[i] == d[i].key
  {
    seq(|d|, i requires 0 <= i < |d| => d[i].key)
  }

  predicate UniqueKeys<K(==), V>(d: seq<Entry<K, V>>)
  {
    forall i, j :: 0 <= i < j < |d| ==> d[i].key != d[j].key
  }

  /** After an assignment the keys are the old keys and the assigned one. */
  lemma AssignKeys<K, V>(d: seq<Entry<K, V>>, k: K, v: V, x: K)
    requires UniqueKeys(d)
    ensures x in Keys(Assign(d, k, v)) <==> x in Keys(d) || x == k
  {
    var r := Assign(d, k, v);
    if x in Keys(r) && x != k {
      var i :| 0 <= i < |r| && Keys(r)[i] == x;
      assert r[i] != Entry(k, v);
      assert Keys(d)[i] == x;
    }
    if x in Keys(d) && x != k {
      var i := IndexOfKey(d, x);
      assert Keys(r)[i] == x;
    }
  }

  /** Position of key `k` in `d`. */
  function IndexOfKey<K(==), V>(d: seq<Entry<K, V>>, k: K): (i: nat)
    requires k in Keys(d)
    ensures i < |d| && d[i].key == k
    ensures forall j :: 0 <= j < i ==> d[j].key != k
  {
    if d[0].key == k then 0
    else
      assert Keys(d[1..]) == Keys(d)[1..];
      1 + IndexOfKey(d[1..], k)
  }

  /** Python's `d[k] = v`: an existing key keeps its position and takes the new value,
      a new key is appended. */
  function Assign<K(==), V>(d: seq<Entry<K, V>>, k: K, v: V): (r: seq<Entry<K, V>>)
    requires UniqueKeys(d)
    ensures UniqueKeys(r)
    ensures k in Keys(r)
    ensures k !in Keys(d) ==> r == d + [Entry(k, v)]
    ensures k in Keys(d) ==> |r| == |d| && r[IndexOfKey(d, k)] == Entry(k, v)
    ensures forall i :: 0 <= i < |d| && d[i].key != k ==> r[i] == d[i]
    ensures forall i :: 0 <= i < |r| ==> r[i] == Entry(k, v) || (i < |d| && r[i] == d[i])
  {
    if k in Keys(d) then
      var i := IndexOfKey(d, k);
      var r := d[i := Entry(k, v)];
      assert Keys(r)[i] == k;
      assert forall j :: 0 <= j < |r| ==> r[j].key == d[j].key;
      r
    else
      var r := d + [Entry(k, v)];
      assert Keys(r)[|d|] == k;
      assert forall j :: 0 <= j < |d| ==> d[j].key in Keys(d);
      r
  }

  /** Python's `d[k]` for a key that is present (the first entry with that key). */
  function Lookup<K(==), V>(d: seq<Entry<K, V>>, k: K): (v: V)
    requires k in Keys(d)
    ensures exists i :: 0 <= i < |d| && d[i].key == k && d[i].val == v
  {
    if d[0].key == k then d[0].val else Lookup(d[1..], k)
  }

  /** With unique keys, looking up the key at position `i` yields the value there. */
  lemma LookupAt<K, V>(d: seq<Entry<K, V>>, i: nat)
    requires UniqueKeys(d) && i < |d|
    ensures d[i].key in Keys(d) && Lookup(d, d[i].key) == d[i].val
  {
    assert Keys(d)[i] == d[i].key;
  }
}
