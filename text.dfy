/** String helpers standing in for the Python built-ins the engine uses:
    `str.lower` (ASCII only), the substring test `k in s`, `any(...)` over a
    keyword list, `str.startswith`, `str.strip` and `str.join`, plus two
    sequence predicates (sub-sequence, no duplicates) used to state rule order. */
module Text {

  // ---------------------------------------------------------------------------
  // Lower-casing

  /** ASCII lower-casing of one character; every other character is kept. */
  function LowerChar(c: char): (d: char)
    ensures 'A' <= c <= 'Z' ==> 'a' <= d <= 'z' && d as int == c as int + 32
    ensures !('A' <= c <= 'Z') ==> d == c
    ensures !('A' <= d <= 'Z')
  {
    if 'A' <= c <= 'Z' then (c as int + 32) as char else c
  }

  /** `s.lower()` restricted to ASCII letters. */
  function Lower(s: string): (r: string)
    ensures |r| == |s|
    ensures forall i :: 0 <= i < |s| ==> r[i] == LowerChar(s[i])
  {
    if s == [] then [] else [LowerChar(s[0])] + Lower(s[1..])
  }

  lemma LowerAppend(a: string, b: string)
    ensures Lower(a + b) == Lower(a) + Lower(b)
  {
    assert forall i :: 0 <= i < |a + b| ==> Lower(a + b)[i] == (Lower(a) + Lower(b))[i];
  }

  // ---------------------------------------------------------------------------
  // Prefix and substring tests

  /** `s.startswith(p)`, and the prefix test on any sequence (`xs[:len(p)] == p`). */
  predicate StartsWith<T(==)>(s: seq<T>, p: seq<T>)
  {
    |p| <= |s| && s[..|p|] == p
  }

  /** Python's `k in s` on strings: `k` occurs in `s` as a contiguous block. */
  predicate Contains(s: string, k: string)
    decreases |s|
  {
    StartsWith(s, k) || (|s| > 0 && Contains(s[1..], k))
  }

  /** `k` occurs in `s` starting at index `i`. */
  ghost predicate OccursAt(s: string, k: string, i: int)
  {
    0 <= i && i + |k| <= |s| && s[i..i + |k|] == k
  }

  /** The recursive substring test agrees with the positional definition. */
  lemma {:induction false} ContainsIff(s: string, k: string)
    ensures Contains(s, k) <==> exists i :: OccursAt(s, k, i)
    decreases |s|
  {
    if exists i :: OccursAt(s, k, i) {
      var i :| OccursAt(s, k, i);
      if i == 0 {
        assert StartsWith(s, k);
      } else {
        assert s[1..][i - 1..i - 1 + |k|] == s[i..i + |k|];
        assert OccursAt(s[1..], k, i - 1);
        ContainsIff(s[1..], k);
      }
    }
    if Contains(s, k) {
      if StartsWith(s, k) {
        assert OccursAt(s, k, 0);
      } else {
        ContainsIff(s[1..], k);
        var i :| OccursAt(s[1..], k, i);
        assert s[1..][i..i + |k|] == s[i + 1..i + 1 + |k|];
        assert OccursAt(s, k, i + 1);
      }
    }
  }

  /** A substring of the middle part is a substring of the whole. */
  lemma ContainsInfix(a: string, b: string, c: string, k: string)
    requires Contains(b, k)
    ensures Contains(a + b + c, k)
  {
    ContainsIff(b, k);
    var i :| OccursAt(b, k, i);
    var s := a + b + c;
    assert s[|a| + i..|a| + i + |k|] == b[i..i + |k|];
    assert OccursAt(s, k, |a| + i);
    ContainsIff(s, k);
  }

  /** Every text contains itself. */
  lemma ContainsSelf(s: string)
    ensures Contains(s, s)
  {
    assert StartsWith(s, s);
  }

  /** A text that occurs in the left/right part occurs in the whole. */
  lemma ContainsConcat(a: string, b: string, k: string)
    ensures Contains(a, k) ==> Contains(a + b, k)
    ensures Contains(b, k) ==> Contains(a + b, k)
  {
    if Contains(a, k) {
      ContainsInfix("", a, b, k);
      assert "" + a + b == a + b;
    }
    if Contains(b, k) {
      ContainsInfix(a, b, "", k);
      assert a + b + "" == a + b;
    }
  }

  /** Containment is transitive. */
  lemma ContainsTrans(s: string, t: string, k: string)
    requires Contains(s, t) && Contains(t, k)
    ensures Contains(s, k)
  {
    ContainsIff(s, t);
    ContainsIff(t, k);
    var i :| OccursAt(s, t, i);
    var j :| OccursAt(t, k, j);
    var u := s[i..i + |t|];
    assert u == t;
    assert u[j..j + |k|] == k;
    var v, w := s[i + j..i + j + |k|], u[j..j + |k|];
    assert forall n :: 0 <= n < |k| ==> v[n] == w[n];
    assert v == w;
    assert OccursAt(s, k, i + j);
    ContainsIff(s, k);
  }

  /** `any(k in s for k in keys)`. */
  predicate ContainsAny(s: string, keys: seq<string>)
  {
    exists i :: 0 <= i < |keys| && Contains(s, keys[i])
  }

  // ---------------------------------------------------------------------------
  // Whitespace stripping

  /** The ASCII characters Python's `str.isspace` accepts. */
  predicate IsSpace(c: char)
  {
    c == ' ' || 9 <= c as int <= 13 || 28 <= c as int <= 31
  }

  /** `s.lstrip()` on ASCII whitespace: drops the longest all-space prefix. */
  function TrimStart(s: string): (r: string)
    ensures |r| <= |s| && r == s[|s| - |r|..]
    ensures forall i :: 0 <= i < |s| - |r| ==> IsSpace(s[i])
    ensures r == [] || !IsSpace(r[0])
  {
    if s != [] && IsSpace(s[0]) then TrimStart(s[1..]) else s
  }

  /** `s.rstrip()` on ASCII whitespace: drops the longest all-space suffix. */
  function TrimEnd(s: string): (r: string)
    ensures |r| <= |s| && r == s[..|r|]
    ensures forall i :: |r| <= i < |s| ==> IsSpace(s[i])
    ensures r == [] || !IsSpace(r[|r| - 1])
  {
    if s != [] && IsSpace(s[|s| - 1]) then TrimEnd(s[..|s| - 1]) else s
  }

  /** `s.strip()` on ASCII whitespace. */
  function Strip(s: string): (r: string)
  {
    TrimEnd(TrimStart(s))
  }

  /** `r` is the slice of `s` at `i`, with only whitespace on either side of it. */
  ghost predicate TrimmedAt(s: string, r: string, i: int)
  {
    && 0 <= i && i + |r| <= |s| && r == s[i..i + |r|]
    && (forall k :: 0 <= k < i ==> IsSpace(s[k]))
    && (forall k :: i + |r| <= k < |s| ==> IsSpace(s[k]))
  }

  /** The stripped text is a slice of `s`, everything cut off on either side
      is whitespace, and the slice neither starts nor ends with whitespace. */
  lemma StripSlice(s: string)
    ensures exists i :: TrimmedAt(s, Strip(s), i)
    ensures Strip(s) == [] || (!IsSpace(Strip(s)[0]) && !IsSpace(Strip(s)[|Strip(s)| - 1]))
  {
    var t := TrimStart(s);
    var r := Strip(s);
    var i := |s| - |t|;
    assert r == s[i..i + |r|];
    forall k | i + |r| <= k < |s| ensures IsSpace(s[k]) {
      assert s[k] == t[k - i];
    }
    if r != [] {
      assert r[0] == t[0];
    }
    assert TrimmedAt(s, r, i);
  }

  /** A text strips to nothing exactly when it is all whitespace. */
  lemma StripEmptyIff(s: string)
    ensures Strip(s) == [] <==> forall i :: 0 <= i < |s| ==> IsSpace(s[i])
  {
    var t := TrimStart(s);
    if t != [] {
      assert t[0] == s[|s| - |t|];
      assert TrimEnd(t) != [];
    }
  }

  /** A text with no whitespace at either end strips to itself. */
  lemma StripTrimmed(s: string)
    requires s != [] && !IsSpace(s[0]) && !IsSpace(s[|s| - 1])
    ensures Strip(s) == s
  {
  }

  lemma StripIdempotent(s: string)
    ensures Strip(Strip(s)) == Strip(s)
  {
    var r := Strip(s);
    assert TrimStart(r) == r;
    assert TrimEnd(r) == r;
  }

  // ---------------------------------------------------------------------------
  // Joining

  /** `sep.join(xs)`. */
  function Join(xs: seq<string>, sep: string): string
  {
    if |xs| == 0 then "" else if |xs| == 1 then xs[0] else xs[0] + sep + Join(xs[1..], sep)
  }

  /** A non-empty join starts with its first item. */
  lemma JoinStartsWithFirst(xs: seq<string>, sep: string)
    requires xs != []
    ensures StartsWith(Join(xs, sep), xs[0])
  {
    var r := Join(xs, sep);
    if |xs| > 1 {
      assert r[..|xs[0]|] == xs[0];
    }
  }

  /** Appending an item puts the separator between the old join and it. */
  lemma {:induction false} JoinSnoc(xs: seq<string>, y: string, sep: string)
    requires xs != []
    ensures Join(xs + [y], sep) == Join(xs, sep) + sep + y
    decreases |xs|
  {
    if |xs| == 1 {
      assert xs + [y] == [xs[0], y];
      assert (xs + [y])[1..] == [y];
    } else {
      assert (xs + [y])[1..] == xs[1..] + [y];
      JoinSnoc(xs[1..], y, sep);
    }
  }

  // ---------------------------------------------------------------------------
  // Order and duplicates

  /** `xs` is obtained from `ys` by deleting elements (order is kept). */
  predicate IsSubseq<T(==)>(xs: seq<T>, ys: seq<T>)
    decreases |ys|
  {
    if xs == [] then true
    else if ys == [] then false
    else if xs[0] == ys[0] then IsSubseq(xs[1..], ys[1..])
    else IsSubseq(xs, ys[1..])
  }

  /** No element occurs twice. */
  predicate NoDuplicates<T(==)>(xs: seq<T>)
  {
    forall i, j :: 0 <= i < j < |xs| ==> xs[i] != xs[j]
  }

  /** The items whose flag is set, in their original order: the shape of a
      run of independent `if flag: out.append(item)` statements. */
  function Select<T>(flags: seq<bool>, items: seq<T>): seq<T>
    requires |flags| == |items|
  {
    if items == [] then [] else Opt(flags[0], items[0]) + Select(flags[1..], items[1..])
  }

  /** `Select` peels off its last item. */
  lemma {:induction false} SelectLast<T>(f: seq<bool>, xs: seq<T>)
    requires |f| == |xs| > 0
    ensures Select(f, xs) == Select(f[..|xs| - 1], xs[..|xs| - 1]) + Opt(f[|xs| - 1], xs[|xs| - 1])
    decreases |xs|
  {
    var n := |xs|;
    if n == 1 {
      assert Select(f[1..], xs[1..]) == [];
      assert Select(f[..0], xs[..0]) == [];
    } else {
      SelectLast(f[1..], xs[1..]);
      assert f[1..][..n - 2] == f[..n - 1][1..];
      assert xs[1..][..n - 2] == xs[..n - 1][1..];
      assert f[1..][n - 2] == f[n - 1] && xs[1..][n - 2] == xs[n - 1];
      assert f[..n - 1][0] == f[0] && xs[..n - 1][0] == xs[0];
    }
  }

  /** `Select` on four items, unfolded. */
  lemma SelectFour<T>(f: seq<bool>, xs: seq<T>)
    requires |f| == |xs| == 4
    ensures Select(f, xs) == [] + Opt(f[0], xs[0]) + Opt(f[1], xs[1]) + Opt(f[2], xs[2]) + Opt(f[3], xs[3])
  {
    SelectLast(f, xs);
    SelectLast(f[..3], xs[..3]);
    assert f[..3][..2] == f[..2] && xs[..3][..2] == xs[..2];
    SelectLast(f[..2], xs[..2]);
    assert f[..2][..1] == f[..1] && xs[..2][..1] == xs[..1];
    SelectLast(f[..1], xs[..1]);
    assert f[..1][..0] == [] && xs[..1][..0] == [];
  }

  /** `Select` on five items, unfolded. */
  lemma SelectFive<T>(f: seq<bool>, xs: seq<T>)
    requires |f| == |xs| == 5
    ensures Select(f, xs) == [] + Opt(f[0], xs[0]) + Opt(f[1], xs[1]) + Opt(f[2], xs[2]) + Opt(f[3], xs[3]) + Opt(f[4], xs[4])
  {
    SelectLast(f, xs);
    SelectFour(f[..4], xs[..4]);
  }

  /** `Select` on six items, unfolded. */
  lemma SelectSix<T>(f: seq<bool>, xs: seq<T>)
    requires |f| == |xs| == 6
    ensures Select(f, xs) == [] + Opt(f[0], xs[0]) + Opt(f[1], xs[1]) + Opt(f[2], xs[2]) + Opt(f[3], xs[3]) + Opt(f[4], xs[4]) + Opt(f[5], xs[5])
  {
    SelectLast(f, xs);
    SelectFive(f[..5], xs[..5]);
  }

  /** Six guarded appends to an empty list select the items whose guard holds. */
  lemma AppendSix<T>(b0: bool, b1: bool, b2: bool, b3: bool, b4: bool, b5: bool, x0: T, x1: T, x2: T, x3: T, x4: T, x5: T)
    ensures AppendIf(AppendIf(AppendIf(AppendIf(AppendIf(AppendIf([], b0, x0), b1, x1), b2, x2), b3, x3), b4, x4), b5, x5)
      == Select([b0, b1, b2, b3, b4, b5], [x0, x1, x2, x3, x4, x5])
  {
    var f, xs := [b0, b1, b2, b3, b4, b5], [x0, x1, x2, x3, x4, x5];
    SelectSix(f, xs);
    assert f[0] == b0 && f[1] == b1 && f[2] == b2 && f[3] == b3 && f[4] == b4 && f[5] == b5;
    assert xs[0] == x0 && xs[1] == x1 && xs[2] == x2 && xs[3] == x3 && xs[4] == x4 && xs[5] == x5;
  }

  /** Four guarded appends to an empty list select the items whose guard holds. */
  lemma AppendFour<T>(b0: bool, b1: bool, b2: bool, b3: bool, x0: T, x1: T, x2: T, x3: T)
    ensures AppendIf(AppendIf(AppendIf(AppendIf([], b0, x0), b1, x1), b2, x2), b3, x3)
      == Select([b0, b1, b2, b3], [x0, x1, x2, x3])
  {
    var f, xs := [b0, b1, b2, b3], [x0, x1, x2, x3];
    SelectFour(f, xs);
    assert f[0] == b0 && f[1] == b1 && f[2] == b2 && f[3] == b3;
    assert xs[0] == x0 && xs[1] == x1 && xs[2] == x2 && xs[3] == x3;
  }

  /** Five guarded appends to an empty list select the items whose guard holds. */
  lemma AppendFive<T>(b0: bool, b1: bool, b2: bool, b3: bool, b4: bool, x0: T, x1: T, x2: T, x3: T, x4: T)
    ensures AppendIf(AppendIf(AppendIf(AppendIf(AppendIf([], b0, x0), b1, x1), b2, x2), b3, x3), b4, x4)
      == Select([b0, b1, b2, b3, b4], [x0, x1, x2, x3, x4])
  {
    var f, xs := [b0, b1, b2, b3, b4], [x0, x1, x2, x3, x4];
    SelectFive(f, xs);
    assert f[0] == b0 && f[1] == b1 && f[2] == b2 && f[3] == b3 && f[4] == b4;
    assert xs[0] == x0 && xs[1] == x1 && xs[2] == x2 && xs[3] == x3 && xs[4] == x4;
  }

  /** `if cond: xs.append(x)`. */
  function AppendIf<T>(xs: seq<T>, cond: bool, x: T): seq<T>
  {
    xs + Opt(cond, x)
  }

  /** The one-element sequence `[x]` when `b` holds, else the empty one. */
  function Opt<T>(b: bool, x: T): (r: seq<T>)
    ensures |r| == (if b then 1 else 0)
    ensures b ==> r[0] == x
  {
    if b then [x] else []
  }

  lemma {:induction false} SelectSubseq<T>(flags: seq<bool>, items: seq<T>)
    requires |flags| == |items|
    ensures |Select(flags, items)| <= |items|
    ensures IsSubseq(Select(flags, items), items)
    decreases |items|
  {
    if items != [] {
      SelectSubseq(flags[1..], items[1..]);
      var rest := Select(flags[1..], items[1..]);
      if flags[0] {
        assert Select(flags, items) == [items[0]] + rest;
        assert ([items[0]] + rest)[1..] == rest;
      } else {
        assert Select(flags, items) == rest;
        SubseqOfTail(rest, items);
      }
    }
  }

  lemma {:induction false} SubseqOfTail<T>(xs: seq<T>, ys: seq<T>)
    requires ys != [] && IsSubseq(xs, ys[1..])
    ensures IsSubseq(xs, ys)
    decreases |ys|, 0
  {
    if xs != [] && xs[0] == ys[0] {
      SubseqTail(xs, ys[1..]);
    }
  }

  lemma {:induction false} SubseqTail<T>(xs: seq<T>, ys: seq<T>)
    requires xs != [] && IsSubseq(xs, ys)
    ensures IsSubseq(xs[1..], ys)
    decreases |ys|, 1
  {
    if xs[0] == ys[0] {
      if xs[1..] != [] {
        assert ys != [];
        SubseqOfTail(xs[1..], ys);
      }
    } else {
      SubseqTail(xs, ys[1..]);
      SubseqOfTail(xs[1..], ys);
    }
  }

  /** An item is selected exactly when its flag is set (items pairwise distinct). */
  lemma {:induction false} SelectMember<T>(flags: seq<bool>, items: seq<T>, i: int)
    requires |flags| == |items| && NoDuplicates(items) && 0 <= i < |items|
    ensures items[i] in Select(flags, items) <==> flags[i]
    decreases |items|
  {
    var rest := Select(flags[1..], items[1..]);
    assert Select(flags, items) == Opt(flags[0], items[0]) + rest;
    if i == 0 {
      SelectOnlyItems(flags[1..], items[1..]);
      assert items[0] !in items[1..];
    } else {
      assert items[1..][i - 1] == items[i];
      SelectMember(flags[1..], items[1..], i - 1);
    }
  }

  lemma {:induction false} SelectOnlyItems<T>(flags: seq<bool>, items: seq<T>)
    requires |flags| == |items|
    ensures forall x :: x in Select(flags, items) ==> x in items
    decreases |items|
  {
    if items != [] {
      SelectOnlyItems(flags[1..], items[1..]);
    }
  }

  /** Nothing is selected exactly when no flag is set. */
  lemma {:induction false} SelectEmptyIff<T>(flags: seq<bool>, items: seq<T>)
    requires |flags| == |items|
    ensures Select(flags, items) == [] <==> forall i :: 0 <= i < |flags| ==> !flags[i]
    decreases |items|
  {
    if items != [] {
      SelectEmptyIff(flags[1..], items[1..]);
      assert forall i :: 1 <= i < |flags| ==> flags[1..][i - 1] == flags[i];
    }
  }

  /** Deleting elements from a duplicate-free sequence keeps it duplicate-free. */
  lemma {:induction false} SubseqNoDuplicates<T>(xs: seq<T>, ys: seq<T>)
    requires IsSubseq(xs, ys) && NoDuplicates(ys)
    ensures NoDuplicates(xs)
    decreases |ys|
  {
    if xs != [] {
      if xs[0] == ys[0] {
        SubseqNoDuplicates(xs[1..], ys[1..]);
        SubseqElements(xs[1..], ys[1..]);
        assert ys[0] !in ys[1..];
        forall j | 0 < j < |xs| ensures xs[0] != xs[j] {
          assert xs[1..][j - 1] == xs[j];
        }
      } else {
        SubseqNoDuplicates(xs, ys[1..]);
      }
    }
  }

  lemma {:induction false} SubseqElements<T>(xs: seq<T>, ys: seq<T>)
    requires IsSubseq(xs, ys)
    ensures forall x :: x in xs ==> x in ys
    decreases |ys|
  {
    if xs != [] {
      if xs[0] == ys[0] {
        SubseqElements(xs[1..], ys[1..]);
        assert forall x :: x in xs ==> x == xs[0] || x in xs[1..];
      } else {
        SubseqElements(xs, ys[1..]);
      }
    }
  }

  /** A sub-sequence of `ys` is also one of any extension of `ys`. */
  lemma {:induction false} SubseqPrefix<T>(xs: seq<T>, ys: seq<T>, zs: seq<T>)
    requires IsSubseq(xs, ys)
    ensures IsSubseq(xs, ys + zs)
    decreases |ys|
  {
    if xs != [] {
      assert (ys + zs)[0] == ys[0];
      assert (ys + zs)[1..] == ys[1..] + zs;
      if xs[0] == ys[0] {
        SubseqPrefix(xs[1..], ys[1..], zs);
      } else {
        SubseqPrefix(xs, ys[1..], zs);
      }
    }
  }
}
