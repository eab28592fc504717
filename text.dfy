/**
 * The JavaScript string operations the dashboard applies to query rows: `Array.prototype.join`,
 * the default ordering of `Array.prototype.sort` (string comparison, code unit by code unit),
 * and reading a value back out of a URL that was built by concatenation.
 */
module Text {
  import opened Optional

  // ---------------------------------------------------------------- join

  /** `parts.join(sep)`: the parts in order with `sep` between neighbours; "" for no parts. */
  function Join(parts: seq<string>, sep: string): string
    decreases |parts|
  {
    if |parts| == 0 then ""
    else if |parts| == 1 then parts[0]
    else parts[0] + sep + Join(parts[1..], sep)
  }

  function SumLengths(parts: seq<string>): nat
    decreases |parts|
  {
    if parts == [] then 0 else |parts[0]| + SumLengths(parts[1..])
  }

  /** Where part `i` starts in `Join(parts, sep)`: all earlier parts and one separator after each. */
  function Offset(parts: seq<string>, sep: string, i: nat): nat
    requires i <= |parts|
  {
    SumLengths(parts[..i]) + i * |sep|
  }

  /** The joined string is exactly as long as the parts and the separators between them. */
  lemma {:induction false} JoinLength(parts: seq<string>, sep: string)
    requires |parts| > 0
    ensures |Join(parts, sep)| == SumLengths(parts) + (|parts| - 1) * |sep|
    decreases |parts|
  {
    if |parts| > 1 {
      JoinLength(parts[1..], sep);
      assert (|parts| - 1) * |sep| == (|parts| - 2) * |sep| + |sep|;
    }
  }

  lemma OffsetTail(parts: seq<string>, sep: string, i: nat)
    requires 0 < i <= |parts|
    ensures Offset(parts, sep, i) == |parts[0]| + |sep| + Offset(parts[1..], sep, i - 1)
  {
    assert parts[..i][1..] == parts[1..][..i - 1];
    assert i * |sep| == (i - 1) * |sep| + |sep|;
  }

  lemma {:induction false} OffsetStep(parts: seq<string>, sep: string, i: nat)
    requires i < |parts|
    ensures Offset(parts, sep, i + 1) == Offset(parts, sep, i) + |parts[i]| + |sep|
    decreases i
  {
    if i == 0 {
      assert parts[..1] == [parts[0]];
      assert parts[..1][1..] == [];
      assert parts[..0] == [];
    } else {
      OffsetTail(parts, sep, i);
      OffsetTail(parts, sep, i + 1);
      OffsetStep(parts[1..], sep, i - 1);
    }
  }

  /**
   * `Join(parts, sep)` is read off part by part: part `i` stands at `Offset(parts, sep, i)`, and
   * between it and part `i + 1` stands exactly one separator.
   */
  lemma {:induction false} JoinPart(parts: seq<string>, sep: string, i: nat)
    requires i < |parts|
    ensures Offset(parts, sep, i) + |parts[i]| <= |Join(parts, sep)|
    ensures Join(parts, sep)[Offset(parts, sep, i)..Offset(parts, sep, i) + |parts[i]|] == parts[i]
    ensures i + 1 < |parts| ==>
      Offset(parts, sep, i + 1) == Offset(parts, sep, i) + |parts[i]| + |sep| &&
      Offset(parts, sep, i + 1) <= |Join(parts, sep)| &&
      Join(parts, sep)[Offset(parts, sep, i) + |parts[i]|..Offset(parts, sep, i + 1)] == sep
    decreases |parts|
  {
    var j := Join(parts, sep);
    if i + 1 < |parts| {
      OffsetStep(parts, sep, i);
      JoinLength(parts, sep);
      JoinLength(parts[1..], sep);
    }
    if i == 0 {
      assert Offset(parts, sep, 0) == 0;
      if |parts| > 1 {
        OffsetTail(parts, sep, 1);
        assert parts[1..][..0] == [];
        assert Offset(parts, sep, 1) == |parts[0]| + |sep|;
        assert j == parts[0] + sep + Join(parts[1..], sep);
      }
    } else {
      var tail := Join(parts[1..], sep);
      assert j == parts[0] + sep + tail;
      var h := |parts[0]| + |sep|;
      JoinPart(parts[1..], sep, i - 1);
      OffsetTail(parts, sep, i);
      assert j[h..] == tail;
      var o := Offset(parts[1..], sep, i - 1);
      assert j[h + o..h + o + |parts[i]|] == tail[o..o + |parts[i]|];
      if i + 1 < |parts| {
        OffsetTail(parts, sep, i + 1);
        OffsetStep(parts[1..], sep, i - 1);
        var o' := Offset(parts[1..], sep, i);
        assert j[h + o + |parts[i]|..h + o'] == tail[o + |parts[i]|..o'];
      }
    }
  }

  // ---------------------------------------------------------------- URLs

  /** The rest of `s` after `prefix`, or None when `s` does not start with `prefix`. */
  function StripPrefix(s: string, prefix: string): (r: Option<string>)
    ensures r.Some? <==> |prefix| <= |s| && s[..|prefix|] == prefix
    ensures r.Some? ==> s == prefix + r.value
  {
    if |prefix| <= |s| && s[..|prefix|] == prefix then Some(s[|prefix|..]) else None
  }

  /** Stripping a prefix undoes prepending it. */
  lemma StripPrefixOfConcat(prefix: string, rest: string)
    ensures StripPrefix(prefix + rest, prefix) == Some(rest)
  {
    assert (prefix + rest)[..|prefix|] == prefix;
    assert (prefix + rest)[|prefix|..] == rest;
  }

  // ---------------------------------------------------------------- ordering and sort

  /**
   * `a <= b` on JavaScript strings: lexicographic by character, a proper prefix before the
   * longer string. (JavaScript compares UTF-16 code units; see README for surrogate pairs.)
   */
  predicate LessEq(a: string, b: string)
    decreases |a|
  {
    a == [] || (b != [] && (a[0] < b[0] || (a[0] == b[0] && LessEq(a[1..], b[1..]))))
  }

  lemma {:induction false} LessEqTotal(a: string, b: string)
    ensures LessEq(a, b) || LessEq(b, a)
    decreases |a|
  {
    if a != [] && b != [] && a[0] == b[0] {
      LessEqTotal(a[1..], b[1..]);
    }
  }

  lemma {:induction false} LessEqAntisymmetric(a: string, b: string)
    requires LessEq(a, b) && LessEq(b, a)
    ensures a == b
    decreases |a|
  {
    if a != [] {
      LessEqAntisymmetric(a[1..], b[1..]);
      assert a == [a[0]] + a[1..] && b == [b[0]] + b[1..];
    }
  }

  lemma {:induction false} LessEqTransitive(a: string, b: string, c: string)
    requires LessEq(a, b) && LessEq(b, c)
    ensures LessEq(a, c)
    decreases |a|
  {
    if a != [] && a[0] == b[0] && b[0] == c[0] {
      LessEqTransitive(a[1..], b[1..], c[1..]);
    }
  }

  predicate Sorted(s: seq<string>) {
    forall i :: 0 < i < |s| ==> LessEq(s[i - 1], s[i])
  }

  /** Inserts `x` before the first element it is LessEq to. */
  function Insert(x: string, s: seq<string>): (r: seq<string>)
    requires Sorted(s)
    ensures Sorted(r)
    ensures multiset(r) == multiset(s) + multiset{x}
    ensures r != [] && (r[0] == x || (s != [] && r[0] == s[0]))
    decreases |s|
  {
    if s == [] then [x]
    else if LessEq(x, s[0]) then [x] + s
    else
      LessEqTotal(x, s[0]);
      var rest := Insert(x, s[1..]);
      assert s == [s[0]] + s[1..];
      [s[0]] + rest
  }

  /** The order the default `Array.prototype.sort()` puts strings in: ascending, every element kept. */
  function Sort(s: seq<string>): (r: seq<string>)
    ensures Sorted(r)
    ensures multiset(r) == multiset(s)
    decreases |s|
  {
    if s == [] then []
    else
      assert s == [s[0]] + s[1..];
      Insert(s[0], Sort(s[1..]))
  }

  lemma {:induction false} SortedHeadLeast(s: seq<string>, k: nat)
    requires Sorted(s) && k < |s|
    ensures LessEq(s[0], s[k])
    decreases k
  {
    if k == 0 {
      LessEqTotal(s[0], s[0]);
    } else {
      SortedHeadLeast(s, k - 1);
      LessEqTransitive(s[0], s[k - 1], s[k]);
    }
  }

  lemma SortedTail(s: seq<string>)
    requires Sorted(s) && s != []
    ensures Sorted(s[1..])
  {
    forall i | 0 < i < |s| - 1 ensures LessEq(s[1..][i - 1], s[1..][i]) {
      assert s[1..][i - 1] == s[i] && s[1..][i] == s[i + 1];
    }
  }

  /** The head of a sorted sequence is LessEq to every element of its multiset. */
  lemma SortedHeadLeastOf(s: seq<string>, x: string)
    requires Sorted(s) && x in multiset(s)
    ensures LessEq(s[0], x)
  {
    assert x in s;
    var k :| 0 <= k < |s| && s[k] == x;
    SortedHeadLeast(s, k);
  }

  lemma MultisetTail(s: seq<string>)
    requires s != []
    ensures multiset(s[1..]) == multiset(s) - multiset{s[0]}
  {
    assert s == [s[0]] + s[1..];
  }

  /**
   * There is only one sorted arrangement of a multiset of strings, so any sort that keeps every
   * element and orders them ascending gives exactly the result of Sort.
   */
  lemma {:induction false} SortedUnique(a: seq<string>, b: seq<string>)
    requires Sorted(a) && Sorted(b) && multiset(a) == multiset(b)
    ensures a == b
    decreases |a|
  {
    if a != [] {
      assert b != [] by { assert a[0] in multiset(a); }
      SortedHeadLeastOf(b, a[0]);
      SortedHeadLeastOf(a, b[0]);
      LessEqAntisymmetric(a[0], b[0]);
      MultisetTail(a);
      MultisetTail(b);
      SortedTail(a);
      SortedTail(b);
      SortedUnique(a[1..], b[1..]);
      assert a == [a[0]] + a[1..] && b == [b[0]] + b[1..];
    }
  }
}
