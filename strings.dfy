/**
 * The subset of Python's `str` operations that the migrator relies on,
 * written over `seq<char>`: substring tests, `replace`, `split`,
 * `strip`, `join`, `lower` and the `os.path` name helpers (POSIX flavour).
 */
module Strings {

  /** `s.startswith(p)` */
  predicate StartsWith(s: string, p: string)
  {
    |p| <= |s| && s[..|p|] == p
  }

  /** `s.endswith(p)` */
  predicate EndsWith(s: string, p: string)
  {
    |p| <= |s| && s[|s| - |p|..] == p
  }

  /** `sub` occurs in `s` starting at index `i`. */
  predicate OccursAt(s: string, sub: string, i: nat)
  {
    i + |sub| <= |s| && s[i..i + |sub|] == sub
  }

  /** `sub in s`, scanning from the left. */
  predicate Contains(s: string, sub: string)
    decreases |s|
  {
    StartsWith(s, sub) || (|s| > 0 && Contains(s[1..], sub))
  }

  /** The scanning definition of `Contains` agrees with the positional one. */
  lemma {:induction false} ContainsIffOccurs(s: string, sub: string)
    ensures Contains(s, sub) <==> exists i: nat :: OccursAt(s, sub, i)
    decreases |s|
  {
    if StartsWith(s, sub) {
      assert OccursAt(s, sub, 0);
    } else if |s| == 0 {
      assert |sub| > 0;
    } else {
      ContainsIffOccurs(s[1..], sub);
      if Contains(s[1..], sub) {
        var i: nat :| OccursAt(s[1..], sub, i);
        SubSlice(s, 1, |s|, i, |sub|);
        assert OccursAt(s, sub, i + 1);
      } else {
        forall i: nat ensures !OccursAt(s, sub, i) {
          if i == 0 {
            if i + |sub| <= |s| { assert s[i..i + |sub|] == s[..|sub|]; }
          } else if i + |sub| <= |s| {
            SubSlice(s, 1, |s|, i - 1, |sub|);
            assert !OccursAt(s[1..], sub, i - 1);
          }
        }
      }
    }
  }

  /** A slice of a slice is a slice of the original sequence. */
  lemma SubSlice<T>(s: seq<T>, i: nat, e: nat, j: nat, l: nat)
    requires i <= e <= |s| && j + l <= e - i
    ensures s[i..e][j..j + l] == s[i + j..i + j + l]
  {
    var a, b := s[i..e][j..j + l], s[i + j..i + j + l];
    forall k | 0 <= k < l ensures a[k] == b[k] {
      assert a[k] == s[i..e][j + k] == s[i + j + k];
    }
  }

  /** A string occurring inside a substring of `s` occurs in `s`. */
  lemma ContainsTransitive(s: string, mid: string, sub: string)
    requires Contains(s, mid) && Contains(mid, sub)
    ensures Contains(s, sub)
  {
    ContainsIffOccurs(s, mid);
    ContainsIffOccurs(mid, sub);
    var i: nat :| OccursAt(s, mid, i);
    var j: nat :| OccursAt(mid, sub, j);
    SubSlice(s, i, i + |mid|, j, |sub|);
    assert OccursAt(s, sub, i + j);
    ContainsIffOccurs(s, sub);
  }

  /** Any infix `s[i..j]` is contained in `s`. */
  lemma ContainsSlice(s: string, i: nat, j: nat)
    requires i <= j <= |s|
    ensures Contains(s, s[i..j])
  {
    assert OccursAt(s, s[i..j], i);
    ContainsIffOccurs(s, s[i..j]);
  }

  /** A suffix test is a special case of a substring test. */
  lemma EndsWithContains(s: string, p: string)
    requires EndsWith(s, p)
    ensures Contains(s, p)
  {
    assert s[|s| - |p|..|s|] == p;
    ContainsSlice(s, |s| - |p|, |s|);
  }

  /**
   * A text that does not contain a pattern whose first character does not
   * recur in it cannot start an occurrence that runs into the pattern.
   */
  lemma NoStraddle(a: string, pat: string)
    requires |a| > 0 && |pat| > 0 && pat[0] !in pat[1..] && !Contains(a, pat)
    ensures !StartsWith(a + pat, pat)
  {
    var s := a + pat;
    assert !StartsWith(a, pat);
    if |pat| <= |a| {
      assert s[..|pat|] == a[..|pat|];
    } else {
      assert s[|a|] == pat[0];
      assert pat[|a|] == pat[1..][|a| - 1];
      assert s[..|pat|][|a|] == pat[0];
    }
  }

  /**
   * Removing a pattern from the end of a text that does not contain it
   * leaves just the text, when the pattern's first character does not recur
   * in it (so no occurrence can straddle the text and the pattern).
   */
  lemma {:induction false} ReplaceSuffix(a: string, pat: string)
    requires |pat| > 0 && pat[0] !in pat[1..] && !Contains(a, pat)
    ensures Replace(a + pat, pat, "") == a
    decreases |a|
  {
    var s := a + pat;
    if |a| > 0 {
      NoStraddle(a, pat);
      assert s[1..] == a[1..] + pat;
      assert !Contains(a[1..], pat);
      ReplaceSuffix(a[1..], pat);
      assert Replace(s, pat, "") == [a[0]] + Replace(a[1..] + pat, pat, "");
      assert [a[0]] + a[1..] == a;
    } else {
      assert s == pat && s[|pat|..] == "";
    }
  }

  /** A character that does not occur in `s` is not a substring of it. */
  lemma {:induction false} CharNotContained(s: string, c: char)
    requires c !in s
    ensures !Contains(s, [c])
    decreases |s|
  {
    if |s| > 0 {
      assert s[..1] == [s[0]];
      assert s[1..] == s[1..] && forall ch :: ch in s[1..] ==> ch in s;
      CharNotContained(s[1..], c);
    }
  }

  /** `s.replace(pat, rep)`: every non-overlapping occurrence, left to right. */
  function Replace(s: string, pat: string, rep: string): string
    requires |pat| > 0
    decreases |s|
  {
    if |s| == 0 then ""
    else if StartsWith(s, pat) then rep + Replace(s[|pat|..], pat, rep)
    else [s[0]] + Replace(s[1..], pat, rep)
  }

  /** Replacing a pattern that does not occur changes nothing. */
  lemma {:induction false} ReplaceAbsent(s: string, pat: string, rep: string)
    requires |pat| > 0 && !Contains(s, pat)
    ensures Replace(s, pat, rep) == s
    decreases |s|
  {
    if |s| > 0 {
      ReplaceAbsent(s[1..], pat, rep);
    }
  }

  /**
   * Replacing a single character by text that does not hold it removes that
   * character entirely, and keeps every other character of `s`.
   */
  lemma {:induction false} ReplaceCharGone(s: string, c: char, rep: string, d: char)
    requires c !in rep
    ensures c !in Replace(s, [c], rep)
    ensures d in Replace(s, [c], rep) ==> d in s || d in rep
    decreases |s|
  {
    if |s| > 0 {
      ReplaceCharGone(s[1..], c, rep, d);
      if StartsWith(s, [c]) {
        assert Replace(s, [c], rep) == rep + Replace(s[1..], [c], rep);
      } else {
        assert s[..1] == [s[0]];
        assert Replace(s, [c], rep) == [s[0]] + Replace(s[1..], [c], rep);
      }
    }
  }

  /** Replacing a single character distributes over concatenation. */
  lemma {:induction false} ReplaceCharConcat(a: string, b: string, c: char, rep: string)
    ensures Replace(a + b, [c], rep) == Replace(a, [c], rep) + Replace(b, [c], rep)
    decreases |a|
  {
    if |a| == 0 {
      assert a + b == b;
    } else {
      var s := a + b;
      assert s[..1] == a[..1] == [a[0]];
      assert s[1..] == a[1..] + b;
      ReplaceCharConcat(a[1..], b, c, rep);
    }
  }

  /** Replacing a character that does not occur changes nothing. */
  lemma ReplaceCharAbsent(s: string, c: char, rep: string)
    requires c !in s
    ensures Replace(s, [c], rep) == s
  {
    CharNotContained(s, c);
    ReplaceAbsent(s, [c], rep);
  }

  /** Every character of `s.replace(pat, rep)` comes from `s` or from `rep`. */
  lemma {:induction false} ReplaceChars(s: string, pat: string, rep: string, d: char)
    requires |pat| > 0
    ensures d in Replace(s, pat, rep) ==> d in s || d in rep
    decreases |s|
  {
    if |s| > 0 {
      if StartsWith(s, pat) {
        ReplaceChars(s[|pat|..], pat, rep, d);
        assert forall ch :: ch in s[|pat|..] ==> ch in s;
      } else {
        ReplaceChars(s[1..], pat, rep, d);
        assert forall ch :: ch in s[1..] ==> ch in s;
      }
    }
  }

  /** A character other than the pattern's first adds no occurrence at the front. */
  lemma ContainsCons(c: char, s: string, p: string)
    requires |p| > 0 && p[0] != c && Contains([c] + s, p)
    ensures Contains(s, p)
  {
    assert ([c] + s)[1..] == s;
    assert |p| <= |s| + 1 ==> ([c] + s)[..|p|][0] == c;
  }

  /** A character other than the pattern's last adds no occurrence at the end. */
  lemma {:induction false} ContainsSnoc(s: string, c: char, p: string)
    requires |p| > 0 && p[|p| - 1] != c && Contains(s + [c], p)
    ensures Contains(s, p)
    decreases |s|
  {
    var t := s + [c];
    assert |s| == 0 ==> t[1..] == [];
    if StartsWith(t, p) {
      assert t[..|p|][|p| - 1] == t[|p| - 1];
      assert |p| <= |s|;
      assert s[..|p|] == t[..|p|];
    } else {
      assert t[1..] == s[1..] + [c];
      ContainsSnoc(s[1..], c, p);
    }
  }

  /** `s.split(c)[-1]`: the longest suffix of `s` free of `c`. */
  function AfterLast(s: string, c: char): (r: string)
    ensures c !in r
    ensures EndsWith(s, r)
    ensures c !in s ==> r == s
    ensures c in s ==> |r| < |s| && s[|s| - |r| - 1] == c
  {
    if |s| == 0 then s
    else if s[|s| - 1] == c then ""
    else
      var init := s[..|s| - 1];
      var last := s[|s| - 1];
      var r' := AfterLast(init, c);
      assert s == init + [last];
      assert s[|s| - |r'| - 1..] == init[|init| - |r'|..] + [last];
      assert c in s ==> c in init;
      r' + [last]
  }

  /** After a text ending with `c`, the last field is whatever follows, when that holds no `c`. */
  lemma {:induction false} AfterLastAfter(d: string, b: string, c: char)
    requires |d| > 0 && d[|d| - 1] == c && c !in b
    ensures AfterLast(d + b, c) == b
    decreases |b|
  {
    var s := d + b;
    if |b| == 0 {
      assert s == d;
    } else {
      var init := b[..|b| - 1];
      assert b[|b| - 1] in b;
      assert s[..|s| - 1] == d + init;
      assert forall ch :: ch in init ==> ch in b;
      AfterLastAfter(d, init, c);
      assert b == init + [b[|b| - 1]];
    }
  }

  /** The prefix of `s` before the first `c` (all of `s` when it has none). */
  function TakeUntil(s: string, c: char): (r: string)
    ensures StartsWith(s, r) && c !in r
    ensures c in s ==> |r| < |s| && s[|r|] == c
  {
    if |s| == 0 || s[0] == c then "" else [s[0]] + TakeUntil(s[1..], c)
  }

  /** The prefix before the first `c` is recovered from any text that puts `c` right after it. */
  lemma {:induction false} TakeUntilPrefix(a: string, b: string, c: char)
    requires c !in a && |b| > 0 && b[0] == c
    ensures TakeUntil(a + b, c) == a
  {
    if |a| > 0 {
      assert (a + b)[1..] == a[1..] + b;
      TakeUntilPrefix(a[1..], b, c);
    }
  }

  /** The suffix of `s` after the first `c`. */
  function DropThrough(s: string, c: char): (r: string)
    requires c in s
    ensures EndsWith(s, r) && |r| < |s|
  {
    s[|TakeUntil(s, c)| + 1..]
  }

  /** `s.split(c)[1]`: the field between the first and the second `c`. */
  function SecondField(s: string, c: char): string
    requires c in s
  {
    TakeUntil(DropThrough(s, c), c)
  }

  /** The second field of a split always occurs in the string itself. */
  lemma SecondFieldContained(s: string, c: char)
    requires c in s
    ensures Contains(s, SecondField(s, c))
  {
    var d := DropThrough(s, c);
    var f := SecondField(s, c);
    assert d == s[|s| - |d|..];
    assert f == d[..|f|];
    assert f == s[|s| - |d|..|s| - |d| + |f|];
    ContainsSlice(s, |s| - |d|, |s| - |d| + |f|);
  }

  /** `os.path.basename` on a POSIX path. */
  function Basename(p: string): string
  {
    AfterLast(p, '/')
  }

  /** Wrapping a text in a character the pattern lacks adds no occurrence. */
  lemma WrappedNotContained(c: char, s: string, p: string)
    requires |p| > 0 && c !in p && !Contains(s, p)
    ensures !Contains([c] + s + [c], p)
  {
    if Contains([c] + s + [c], p) {
      ContainsSnoc([c] + s, c, p);
      ContainsCons(c, s, p);
    }
  }

  /** Removing a character that wraps a text free of it gives the text back. */
  lemma UnwrapChar(c: char, s: string)
    requires c !in s
    ensures Replace([c] + s + [c], [c], "") == s
  {
    ReplaceCharConcat([c] + s, [c], c, "");
    ReplaceCharConcat([c], s, c, "");
    ReplaceCharAbsent(s, c, "");
    assert [c][1..] == [];
  }

  /**
   * The base name of `<dir>/<name><suffix>` with the suffix removed is
   * `<name>`, for a suffix that cannot overlap itself.
   */
  lemma BasenameWithoutSuffix(dir: string, name: string, suffix: string)
    requires |dir| > 0 && dir[|dir| - 1] == '/' && '/' !in name && '/' !in suffix
    requires |suffix| > 0 && suffix[0] !in suffix[1..] && !Contains(name, suffix)
    ensures Replace(Basename(dir + name + suffix), suffix, "") == name
  {
    var file := name + suffix;
    assert forall c :: c in file ==> c in name || c in suffix;
    AfterLastAfter(dir, file, '/');
    assert dir + name + suffix == dir + file;
    assert Basename(dir + name + suffix) == file;
    ReplaceSuffix(name, suffix);
  }

  /**
   * `os.path.splitext(b)[0]` for a name without `/`: the text before the
   * last dot, unless every character before that dot is itself a dot
   * (leading dots never start an extension).
   */
  function StripExtension(b: string): (r: string)
    ensures StartsWith(b, r)
  {
    if '.' !in b then b
    else
      var d := |b| - |AfterLast(b, '.')| - 1;
      if exists k :: 0 <= k < d && b[k] != '.' then b[..d] else b
  }

  /** `splitext` of `<stem>.<ext>` is the stem, for a stem that does not start with a dot. */
  lemma StripDottedExtension(stem: string, ext: string)
    requires stem != "" && '.' !in stem && '.' !in ext
    ensures StripExtension(stem + "." + ext) == stem
  {
    var b := stem + "." + ext;
    assert b == (stem + ".") + ext;
    AfterLastAfter(stem + ".", ext, '.');
    assert |b| - |ext| - 1 == |stem|;
    assert b[0] != '.';
    assert b[..|stem|] == stem;
  }

  /** Python's `str.isspace` on one character. */
  predicate IsSpace(ch: char)
  {
    ('\t' <= ch <= '\r') || ('\U{1c}' <= ch <= ' ')
    || ch == '\U{85}' || ch == '\U{a0}' || ch == '\U{1680}'
    || ('\U{2000}' <= ch <= '\U{200a}') || ch == '\U{2028}' || ch == '\U{2029}'
    || ch == '\U{202f}' || ch == '\U{205f}' || ch == '\U{3000}'
  }

  /** Drops the longest prefix whose characters satisfy `drop`. */
  function LStripBy(s: string, drop: char -> bool): (r: string)
    ensures EndsWith(s, r)
    ensures r == [] || !drop(r[0])
    ensures forall i :: 0 <= i < |s| - |r| ==> drop(s[i])
  {
    if |s| > 0 && drop(s[0]) then LStripBy(s[1..], drop) else s
  }

  /** Drops the longest suffix whose characters satisfy `drop`. */
  function RStripBy(s: string, drop: char -> bool): (r: string)
    ensures StartsWith(s, r)
    ensures r == [] || !drop(r[|r| - 1])
    ensures forall i :: |r| <= i < |s| ==> drop(s[i])
  {
    if |s| > 0 && drop(s[|s| - 1]) then RStripBy(s[..|s| - 1], drop) else s
  }

  /** Stripping a prefix of dropped characters in front of a kept one removes exactly that prefix. */
  lemma {:induction false} LStripByExact(pre: string, rest: string, drop: char -> bool)
    requires forall i :: 0 <= i < |pre| ==> drop(pre[i])
    requires rest == [] || !drop(rest[0])
    ensures LStripBy(pre + rest, drop) == rest
    decreases |pre|
  {
    if |pre| > 0 {
      assert (pre + rest)[0] == pre[0];
      assert (pre + rest)[1..] == pre[1..] + rest;
      LStripByExact(pre[1..], rest, drop);
    } else {
      assert pre + rest == rest;
    }
  }

  /** Stripping a suffix of dropped characters after a kept one removes exactly that suffix. */
  lemma {:induction false} RStripByExact(rest: string, suf: string, drop: char -> bool)
    requires forall i :: 0 <= i < |suf| ==> drop(suf[i])
    requires rest == [] || !drop(rest[|rest| - 1])
    ensures RStripBy(rest + suf, drop) == rest
    decreases |suf|
  {
    var s := rest + suf;
    if |suf| > 0 {
      assert s[|s| - 1] == suf[|suf| - 1];
      assert s[..|s| - 1] == rest + suf[..|suf| - 1];
      RStripByExact(rest, suf[..|suf| - 1], drop);
    } else {
      assert s == rest;
    }
  }

  /** `s.strip()` */
  function Strip(s: string): string
  {
    RStripBy(LStripBy(s, IsSpace), IsSpace)
  }

  /** `s.rstrip(c)` for a single character `c`. */
  function RStripChar(s: string, c: char): string
  {
    RStripBy(s, ch => ch == c)
  }

  /** `strip` removes exactly the blank space around a text that neither starts nor ends with it. */
  lemma StripExact(w1: string, core: string, w2: string)
    requires forall i :: 0 <= i < |w1| ==> IsSpace(w1[i])
    requires forall i :: 0 <= i < |w2| ==> IsSpace(w2[i])
    requires core == [] || (!IsSpace(core[0]) && !IsSpace(core[|core| - 1]))
    ensures Strip(w1 + core + w2) == core
  {
    assert w1 + core + w2 == w1 + (core + w2);
    if core == [] {
      assert core + w2 == w2;
      LStripByExact(w1 + w2, [], IsSpace);
      assert w1 + w2 + [] == w1 + w2;
      assert forall i :: 0 <= i < |w1 + w2| ==> IsSpace((w1 + w2)[i]);
    } else {
      assert (core + w2)[0] == core[0];
      LStripByExact(w1, core + w2, IsSpace);
      RStripByExact(core, w2, IsSpace);
    }
  }

  /** `rstrip(c)` removes exactly the run of `c` after a text that does not end with `c`. */
  lemma {:induction false} RStripCharExact(rest: string, suf: string, c: char)
    requires forall i :: 0 <= i < |suf| ==> suf[i] == c
    requires rest == [] || rest[|rest| - 1] != c
    ensures RStripChar(rest + suf, c) == rest
    decreases |suf|
  {
    var s := rest + suf;
    if |suf| > 0 {
      assert s[|s| - 1] == c;
      assert s[..|s| - 1] == rest + suf[..|suf| - 1];
      RStripCharExact(rest, suf[..|suf| - 1], c);
    } else {
      assert s == rest;
    }
  }

  /** `sep.join(xs)` */
  function Join(xs: seq<string>, sep: string): string
  {
    if |xs| == 0 then ""
    else if |xs| == 1 then xs[0]
    else xs[0] + sep + Join(xs[1..], sep)
  }

  /** A non-empty join starts with its first element. */
  lemma JoinStartsWithFirst(xs: seq<string>, sep: string)
    requires |xs| > 0
    ensures StartsWith(Join(xs, sep), xs[0])
  {
    if |xs| > 1 {
      assert Join(xs, sep) == xs[0] + (sep + Join(xs[1..], sep));
    }
  }

  /** `s.lower()` restricted to ASCII letters. */
  function LowerAscii(s: string): (r: string)
    ensures |r| == |s|
  {
    if |s| == 0 then ""
    else [if 'A' <= s[0] <= 'Z' then (s[0] as int + 32) as char else s[0]] + LowerAscii(s[1..])
  }

  /** No element occurs twice. */
  predicate NoDup<T(==)>(s: seq<T>)
  {
    forall i, j :: 0 <= i < j < |s| ==> s[i] != s[j]
  }

  /** `xs` is obtained from `ys` by deleting elements (order kept). */
  predicate IsSubseq<T(==)>(xs: seq<T>, ys: seq<T>)
    decreases |ys|
  {
    if |xs| == 0 then true
    else if |ys| == 0 then false
    else (xs[0] == ys[0] && IsSubseq(xs[1..], ys[1..])) || IsSubseq(xs, ys[1..])
  }

  /** Every element of a subsequence is an element of the whole. */
  lemma {:induction false} SubseqMembers<T>(xs: seq<T>, ys: seq<T>, x: T)
    requires IsSubseq(xs, ys) && x in xs
    ensures x in ys
    decreases |ys|
  {
    if |ys| > 0 {
      if xs[0] == ys[0] && IsSubseq(xs[1..], ys[1..]) {
        if x != xs[0] { SubseqMembers(xs[1..], ys[1..], x); }
      } else {
        SubseqMembers(xs, ys[1..], x);
      }
    }
  }

  /** Appending an element to the sub-sequence and the whole keeps the relation. */
  lemma {:induction false} SubseqAppend<T>(xs: seq<T>, ys: seq<T>, y: T, keep: bool)
    requires IsSubseq(xs, ys)
    ensures IsSubseq(if keep then xs + [y] else xs, ys + [y])
    decreases |ys|
  {
    var xs' := if keep then xs + [y] else xs;
    if |ys| == 0 {
      assert |xs| == 0;
      if keep {
        assert xs' == [y] && (ys + [y])[1..] == [];
        assert IsSubseq(xs'[1..], (ys + [y])[1..]);
      }
    } else if |xs| == 0 {
      if keep {
        SubseqAppend(xs, ys[1..], y, keep);
        assert (ys + [y])[1..] == ys[1..] + [y];
      }
    } else {
      assert (ys + [y])[1..] == ys[1..] + [y];
      if xs[0] == ys[0] && IsSubseq(xs[1..], ys[1..]) {
        SubseqAppend(xs[1..], ys[1..], y, keep);
        assert xs'[0] == xs[0];
        assert xs'[1..] == if keep then xs[1..] + [y] else xs[1..];
      } else {
        SubseqAppend(xs, ys[1..], y, keep);
      }
    }
  }
}
