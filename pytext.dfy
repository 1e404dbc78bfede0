/** The Python string operations that the field cleaners chain together:
    `str.lower`, `str.strip`, `str.replace(old, '')`, the `in` substring test,
    and `re.sub(r'[^...]', '', s)`, which keeps only the characters of a class. */
module PyText {

  /** `str.lower` on one character; only the ASCII letters are case-mapped here. */
  function LowerChar(c: char): char
  {
    if 'A' <= c <= 'Z' then (c as int - 'A' as int + 'a' as int) as char else c
  }

  predicate IsUpper(c: char)
  {
    'A' <= c <= 'Z'
  }

  function Lower(s: string): (r: string)
    ensures |r| == |s|
    ensures forall i :: 0 <= i < |s| ==> r[i] == LowerChar(s[i])
    ensures forall i :: 0 <= i < |s| ==> !IsUpper(r[i])
  {
    if s == [] then [] else [LowerChar(s[0])] + Lower(s[1..])
  }

  /** The characters Python's `str.isspace` accepts, which `str.strip()` removes. */
  predicate IsSpace(c: char)
  {
    c == ' ' || '\t' <= c <= '\r' || '\U{1C}' <= c <= '\U{1F}'
    || c == '\U{85}' || c == '\U{A0}' || c == '\U{1680}'
    || '\U{2000}' <= c <= '\U{200A}' || c == '\U{2028}' || c == '\U{2029}'
    || c == '\U{202F}' || c == '\U{205F}' || c == '\U{3000}'
  }

  /** Drops the leading whitespace: the result is the suffix of `s` that
      starts at its first non-space character. */
  function StripLeft(s: string): (r: string)
    ensures |r| <= |s| && r == s[|s| - |r|..]
    ensures forall k :: 0 <= k < |s| - |r| ==> IsSpace(s[k])
    ensures r == [] || !IsSpace(r[0])
  {
    if s != [] && IsSpace(s[0]) then StripLeft(s[1..]) else s
  }

  /** Drops the trailing whitespace: the result is the prefix of `s` that
      ends at its last non-space character. */
  function StripRight(s: string): (r: string)
    ensures |r| <= |s| && r == s[..|r|]
    ensures forall k :: |r| <= k < |s| ==> IsSpace(s[k])
    ensures r == [] || !IsSpace(r[|r| - 1])
  {
    if s != [] && IsSpace(s[|s| - 1]) then StripRight(s[..|s| - 1]) else s
  }

  /** Every character of `t` is whitespace. */
  predicate AllSpace(t: string)
  {
    forall k :: 0 <= k < |t| ==> IsSpace(t[k])
  }

  /** `r` is the slice of `s` that starts at index `i`, and only whitespace
      of `s` lies before and after it. */
  predicate TrimmedSlice(s: string, r: string, i: int)
  {
    0 <= i <= |s| - |r| && r == s[i..i + |r|]
    && AllSpace(s[..i]) && AllSpace(s[i + |r|..])
  }

  /** `str.strip()` with no argument: the part of `s` left once the
      whitespace at both ends is dropped. */
  function Strip(s: string): (r: string)
    ensures |r| <= |s|
    ensures r == [] || (!IsSpace(r[0]) && !IsSpace(r[|r| - 1]))
    ensures exists i :: TrimmedSlice(s, r, i)
  {
    var l := StripLeft(s);
    var r := StripRight(l);
    PrefixOfSuffix(s, l, r);
    r
  }

  /** A prefix `r` of a suffix `l` of `s` is a slice of `s`, and what `l`
      has after `r` is what `s` has after that slice. */
  lemma PrefixOfSuffix(s: string, l: string, r: string)
    requires |l| <= |s| && l == s[|s| - |l|..]
    requires |r| <= |l| && r == l[..|r|]
    requires forall k :: 0 <= k < |s| - |l| ==> IsSpace(s[k])
    requires forall k :: |r| <= k < |l| ==> IsSpace(l[k])
    ensures TrimmedSlice(s, r, |s| - |l|)
  {
    var i := |s| - |l|;
    assert s[i + |r|..] == l[|r|..];
  }

  /** `pat` occurs in `s` starting at index `i`. */
  predicate OccursAt(s: string, pat: string, i: int)
  {
    0 <= i <= |s| - |pat| && s[i..i + |pat|] == pat
  }

  /** `pat in s`. */
  predicate Contains(s: string, pat: string)
    ensures Contains(s, pat) ==> |pat| <= |s|
    ensures pat == [] ==> Contains(s, pat)
  {
    assert pat == [] ==> OccursAt(s, pat, 0);
    exists i | 0 <= i <= |s| - |pat| :: OccursAt(s, pat, i)
  }

  /** `s.replace(pat, '')`: scanning from the left, every occurrence of `pat`
      that does not overlap an earlier one is removed. */
  function RemoveAll(s: string, pat: string): (r: string)
    requires pat != []
    ensures |r| <= |s|
    decreases |s|
  {
    if |s| < |pat| then s
    else if s[..|pat|] == pat then RemoveAll(s[|pat|..], pat)
    else [s[0]] + RemoveAll(s[1..], pat)
  }

  /** `re.sub(r'[^C]', '', s)` for a character class C: keeps, in order,
      exactly the characters of `s` that satisfy `p`. */
  function Keep(s: string, p: char -> bool): (r: string)
    ensures |r| <= |s|
    ensures forall i :: 0 <= i < |r| ==> p(r[i])
  {
    if s == [] then [] else (if p(s[0]) then [s[0]] else []) + Keep(s[1..], p)
  }

  lemma {:induction false} KeepAppend(a: string, b: string, p: char -> bool)
    ensures Keep(a + b, p) == Keep(a, p) + Keep(b, p)
  {
    if a != [] {
      assert (a + b)[0] == a[0];
      assert (a + b)[1..] == a[1..] + b;
      KeepAppend(a[1..], b, p);
    } else {
      assert a + b == b;
    }
  }

  /** Keeping the characters of a string made only of characters of the
      class gives the string back. */
  lemma {:induction false} KeepAll(s: string, p: char -> bool)
    requires forall i :: 0 <= i < |s| ==> p(s[i])
    ensures Keep(s, p) == s
  {
    if s != [] {
      KeepAll(s[1..], p);
    }
  }

  lemma {:induction false} KeepNone(s: string, p: char -> bool)
    requires forall i :: 0 <= i < |s| ==> !p(s[i])
    ensures Keep(s, p) == []
  {
    if s != [] {
      KeepNone(s[1..], p);
    }
  }

  /** Filtering twice is filtering once. */
  lemma KeepIdempotent(s: string, p: char -> bool)
    ensures Keep(Keep(s, p), p) == Keep(s, p)
  {
    KeepAll(Keep(s, p), p);
  }

  /** Filtering by a wider class first does not change what a narrower
      filter keeps. */
  lemma {:induction false} KeepNested(s: string, p: char -> bool, q: char -> bool)
    requires forall c :: p(c) ==> q(c)
    ensures Keep(Keep(s, q), p) == Keep(s, p)
  {
    if s != [] {
      KeepNested(s[1..], p, q);
      KeepAppend(if q(s[0]) then [s[0]] else [], Keep(s[1..], q), p);
    }
  }

  /** A character survives the filter iff it occurs in the input and belongs to the class. */
  lemma {:induction false} KeepMembers(s: string, p: char -> bool, c: char)
    ensures c in Keep(s, p) <==> c in s && p(c)
  {
    if s != [] {
      KeepMembers(s[1..], p, c);
      assert s == [s[0]] + s[1..];
    }
  }

  /** Lower-casing cannot change which characters of a class survive, when the
      class holds no ASCII letter. */
  lemma {:induction false} KeepLower(s: string, p: char -> bool)
    requires forall c :: 'A' <= c <= 'z' ==> !p(c)
    ensures Keep(Lower(s), p) == Keep(s, p)
  {
    if s != [] {
      KeepLower(s[1..], p);
      assert Lower(s) == [LowerChar(s[0])] + Lower(s[1..]);
      assert Lower(s)[1..] == Lower(s[1..]);
    }
  }

  /** Stripping cannot change which characters of a class survive, when the
      class holds no whitespace. */
  lemma KeepStrip(s: string, p: char -> bool)
    requires forall c :: IsSpace(c) ==> !p(c)
    ensures Keep(Strip(s), p) == Keep(s, p)
  {
    KeepStripLeft(s, p);
    KeepStripRight(StripLeft(s), p);
  }

  lemma KeepStripLeft(s: string, p: char -> bool)
    requires forall c :: IsSpace(c) ==> !p(c)
    ensures Keep(StripLeft(s), p) == Keep(s, p)
  {
    var l := StripLeft(s);
    var front := s[..|s| - |l|];
    assert s == front + l;
    assert forall i :: 0 <= i < |front| ==> IsSpace(front[i]);
    KeepAppend(front, l, p);
    KeepNone(front, p);
  }

  lemma KeepStripRight(s: string, p: char -> bool)
    requires forall c :: IsSpace(c) ==> !p(c)
    ensures Keep(StripRight(s), p) == Keep(s, p)
  {
    var r := StripRight(s);
    var back := s[|r|..];
    assert s == r + back;
    assert forall i :: 0 <= i < |back| ==> IsSpace(back[i]);
    KeepAppend(r, back, p);
    KeepNone(back, p);
  }

  /** Removing every occurrence of a word that holds no character of a class
      cannot change which characters of that class survive. */
  lemma {:induction false} KeepRemoveAll(s: string, pat: string, p: char -> bool)
    requires pat != []
    requires forall i :: 0 <= i < |pat| ==> !p(pat[i])
    ensures Keep(RemoveAll(s, pat), p) == Keep(s, p)
    decreases |s|
  {
    if |s| < |pat| {
    } else if s[..|pat|] == pat {
      KeepRemoveAll(s[|pat|..], pat, p);
      assert s == pat + s[|pat|..];
      KeepAppend(pat, s[|pat|..], p);
      KeepNone(pat, p);
    } else {
      KeepRemoveAll(s[1..], pat, p);
      assert s == [s[0]] + s[1..];
      KeepAppend([s[0]], s[1..], p);
    }
  }

  /** A string without the word is left unchanged by removing it. */
  lemma {:induction false} RemoveAllAbsent(s: string, pat: string)
    requires pat != []
    requires !Contains(s, pat)
    ensures RemoveAll(s, pat) == s
    decreases |s|
  {
    if |s| >= |pat| {
      assert !OccursAt(s, pat, 0);
      assert !Contains(s[1..], pat) by {
        forall i | OccursAt(s[1..], pat, i) ensures OccursAt(s, pat, i + 1) {
          assert s[1..][i..i + |pat|] == s[i + 1..i + 1 + |pat|];
        }
      }
      RemoveAllAbsent(s[1..], pat);
    }
  }

  /** A word cannot occur in a string that lacks its first character. */
  lemma NoFirstCharNotContained(s: string, pat: string)
    requires pat != [] && pat[0] !in s
    ensures !Contains(s, pat)
  {
    forall i | 0 <= i <= |s| - |pat| ensures !OccursAt(s, pat, i) {
      assert s[i..i + |pat|][0] == s[i] != pat[0];
    }
  }

  /** A prefix that lacks the word's first character passes through the
      removal untouched. */
  lemma {:induction false} RemoveAllAfter(a: string, b: string, pat: string)
    requires pat != [] && pat[0] !in a
    ensures RemoveAll(a + b, pat) == a + RemoveAll(b, pat)
    decreases |a|
  {
    if a != [] {
      var s := a + b;
      if |s| >= |pat| {
        assert s[..|pat|][0] == a[0] != pat[0];
        assert s[1..] == a[1..] + b;
        RemoveAllAfter(a[1..], b, pat);
      }
    } else {
      assert a + b == b;
    }
  }

  /** The class of every character but `c`. */
  function Except(c: char): char -> bool
  {
    d => d != c
  }

  /** Removing a one-character word is filtering out that character. */
  lemma {:induction false} RemoveCharIsKeep(s: string, c: char)
    ensures RemoveAll(s, [c]) == Keep(s, Except(c))
  {
    if s != [] {
      assert s[..1] == [s[0]];
      RemoveCharIsKeep(s[1..], c);
    }
  }

  /** Every character left after a removal was in the input. */
  lemma {:induction false} RemoveAllMembers(s: string, pat: string, c: char)
    requires pat != []
    ensures c in RemoveAll(s, pat) ==> c in s
    decreases |s|
  {
    if |s| >= |pat| {
      if s[..|pat|] == pat {
        RemoveAllMembers(s[|pat|..], pat, c);
        assert c in s[|pat|..] ==> c in s;
      } else {
        RemoveAllMembers(s[1..], pat, c);
        assert c in s[1..] ==> c in s;
      }
    }
  }

  /** Every character left after stripping was in the input. */
  lemma StripMembers(s: string, c: char)
    ensures c in Strip(s) ==> c in s
  {
    var l := StripLeft(s);
    assert c in StripRight(l) ==> c in l;
    assert c in l ==> c in s;
  }

  /** Removing a one-character word distributes over concatenation. */
  lemma {:induction false} RemoveCharAppend(a: string, b: string, c: char)
    ensures RemoveAll(a + b, [c]) == RemoveAll(a, [c]) + RemoveAll(b, [c])
  {
    if a != [] {
      assert (a + b)[1..] == a[1..] + b;
      assert (a + b)[..1] == a[..1] == [a[0]];
      RemoveCharAppend(a[1..], b, c);
    } else {
      assert a + b == b;
    }
  }

  lemma LowerIdentity(s: string)
    requires forall i :: 0 <= i < |s| ==> !IsUpper(s[i])
    ensures Lower(s) == s
  {
  }

  /** A string with no whitespace at either end is its own strip. */
  lemma StripIdentity(s: string)
    requires s == [] || (!IsSpace(s[0]) && !IsSpace(s[|s| - 1]))
    ensures Strip(s) == s
  {
  }

  lemma StripConcatIdentity(a: string, b: string)
    requires a != [] && b != [] && !IsSpace(a[0]) && !IsSpace(b[|b| - 1])
    ensures Strip(a + b) == a + b
  {
    var s := a + b;
    assert s[0] == a[0] && s[|s| - 1] == b[|b| - 1];
    StripIdentity(s);
  }

  /** Stripping drops one trailing blank after a string that has no
      whitespace at either end. */
  lemma StripTrailingBlank(s: string)
    requires s != [] && !IsSpace(s[0]) && !IsSpace(s[|s| - 1])
    ensures Strip(s + " ") == s
  {
    assert StripLeft(s + " ") == s + " ";
    assert (s + " ")[..|s|] == s;
  }
}
