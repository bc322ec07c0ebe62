/** The string operations of Python that the helpers of gpt_ui rely on:
    `str.strip()`, `re.sub` on a fixed literal, a character-class deletion,
    `endswith`, `in` and `''.join`. */
module Strings {

  /** Python's `str.isspace()` on one character: the set `str.strip()` removes. */
  predicate IsSpace(c: char) {
    c == ' ' || ('\t' <= c <= '\r') || ('\U{001C}' <= c <= '\U{001F}')
    || c == '\U{0085}' || c == '\U{00A0}' || c == '\U{1680}'
    || ('\U{2000}' <= c <= '\U{200A}') || c == '\U{2028}' || c == '\U{2029}'
    || c == '\U{202F}' || c == '\U{205F}' || c == '\U{3000}'
  }

  /** No whitespace at either end. */
  predicate Stripped(s: string) {
    s == [] || (!IsSpace(s[0]) && !IsSpace(s[|s| - 1]))
  }

  /** `s.lstrip()`: the suffix left after dropping leading whitespace. */
  function LStrip(s: string): (r: string)
    ensures |r| <= |s| && r == s[|s| - |r|..]
    ensures r == [] || !IsSpace(r[0])
    ensures forall i :: 0 <= i < |s| - |r| ==> IsSpace(s[i])
  {
    if |s| > 0 && IsSpace(s[0]) then LStrip(s[1..]) else s
  }

  /** `s.rstrip()`: the prefix left after dropping trailing whitespace. */
  function RStrip(s: string): (r: string)
    ensures |r| <= |s| && r == s[..|r|]
    ensures r == [] || !IsSpace(r[|r| - 1])
    ensures forall i :: |r| <= i < |s| ==> IsSpace(s[i])
  {
    if |s| > 0 && IsSpace(s[|s| - 1]) then RStrip(s[..|s| - 1]) else s
  }

  /** `s.strip()`: both ends free of whitespace, only characters of `s`,
      and a string already stripped is returned as it is. */
  function Strip(s: string): (r: string)
    ensures Stripped(r)
    ensures |r| <= |s| && forall c :: c in r ==> c in s
    ensures Stripped(s) ==> r == s
  {
    var l := LStrip(s);
    var r := RStrip(l);
    SliceOfStrips(s, l, r);
    r
  }

  /** The right strip of a left strip is a slice of the input. */
  lemma {:induction false} SliceOfStrips(s: string, l: string, r: string)
    requires |l| <= |s| && l == s[|s| - |l|..]
    requires |r| <= |l| && r == l[..|r|]
    requires forall i :: |r| <= i < |l| ==> IsSpace(l[i])
    ensures r == s[|s| - |l|..|s| - |l| + |r|]
    ensures forall k :: |s| - |l| + |r| <= k < |s| ==> IsSpace(s[k])
    ensures forall c :: c in r ==> c in s
  {
    var a := |s| - |l|;
    forall k | a + |r| <= k < |s| ensures IsSpace(s[k]) {
      assert s[k] == l[k - a];
    }
    forall c | c in r ensures c in s {
      var i :| 0 <= i < |r| && r[i] == c;
      assert s[a + i] == c;
    }
  }

  /** What `strip` keeps is the contiguous slice of `s` between its leading
      and its trailing whitespace. */
  lemma {:induction false} StripSlice(s: string) returns (a: nat)
    ensures a + |Strip(s)| <= |s| && Strip(s) == s[a..a + |Strip(s)|]
    ensures forall k :: 0 <= k < a ==> IsSpace(s[k])
    ensures forall k :: a + |Strip(s)| <= k < |s| ==> IsSpace(s[k])
  {
    var l := LStrip(s);
    var r := RStrip(l);
    assert Strip(s) == r;
    SliceOfStrips(s, l, r);
    a := |s| - |l|;
  }

  /** `re.sub(pat, rep, s)` for a pattern without metacharacters: every
      non-overlapping occurrence of `pat`, scanning left to right, becomes `rep`. */
  function ReplaceAll(s: string, pat: string, rep: string): (r: string)
    requires |pat| > 0
    ensures forall c :: c in r ==> c in s || c in rep
    ensures |rep| <= |pat| ==> |r| <= |s|
    ensures |pat| == 1 && pat[0] !in rep ==> pat[0] !in r
    ensures !Contains(s, pat) ==> r == s
    decreases |s|
  {
    if |s| < |pat| then s
    else if s[..|pat|] == pat then rep + ReplaceAll(s[|pat|..], pat, rep)
    else [s[0]] + ReplaceAll(s[1..], pat, rep)
  }

  /** With a one-character pattern, the head character is replaced on its own. */
  lemma ReplaceAllHead(s: string, pat: string, rep: string)
    requires |pat| == 1 && |s| > 0
    ensures ReplaceAll(s, pat, rep)
            == (if s[0] == pat[0] then rep else [s[0]]) + ReplaceAll(s[1..], pat, rep)
  {
    assert s[..1] == pat <==> s[0] == pat[0];
  }

  lemma ReplaceAllChar(c: char, pat: string, rep: string)
    requires |pat| == 1
    ensures ReplaceAll([c], pat, rep) == if c == pat[0] then rep else [c]
  {
    ReplaceAllHead([c], pat, rep);
    assert [c][1..] == [];
  }

  /** With a one-character pattern, replacement works piecewise: unmatched
      characters survive, in order. */
  lemma {:induction false} ReplaceAllConcat(a: string, b: string, pat: string, rep: string)
    requires |pat| == 1
    ensures ReplaceAll(a + b, pat, rep) == ReplaceAll(a, pat, rep) + ReplaceAll(b, pat, rep)
    decreases |a|
  {
    if a == [] {
      assert a + b == b;
    } else {
      var head := if a[0] == pat[0] then rep else [a[0]];
      ReplaceAllConcat(a[1..], b, pat, rep);
      assert (a + b)[0] == a[0];
      assert (a + b)[1..] == a[1..] + b;
      ReplaceAllHead(a + b, pat, rep);
      ReplaceAllHead(a, pat, rep);
      AppendAssoc(head, ReplaceAll(a[1..], pat, rep), ReplaceAll(b, pat, rep));
    }
  }

  /** `re.sub('[...]+', '', s)`: every character of the class is deleted. */
  function DeleteChars(s: string, cs: set<char>): (r: string)
    ensures |r| <= |s|
    ensures (forall i :: 0 <= i < |s| ==> s[i] !in cs) ==> r == s
  {
    if s == [] then [] else (if s[0] in cs then [] else [s[0]]) + DeleteChars(s[1..], cs)
  }

  /** Only characters of the input outside the class are left. */
  lemma {:induction false} DeleteCharsMembers(s: string, cs: set<char>)
    ensures forall c :: c in DeleteChars(s, cs) ==> c in s && c !in cs
    decreases |s|
  {
    if s != [] {
      DeleteCharsMembers(s[1..], cs);
      DeleteCharsHead(s, cs);
    }
  }

  lemma DeleteCharsChar(c: char, cs: set<char>)
    ensures DeleteChars([c], cs) == if c in cs then [] else [c]
  {
    assert [c][1..] == [];
  }

  lemma DeleteCharsHead(s: string, cs: set<char>)
    requires |s| > 0
    ensures DeleteChars(s, cs) == (if s[0] in cs then [] else [s[0]]) + DeleteChars(s[1..], cs)
  {
  }

  /** Deletion works piecewise: every character outside the class is kept, in order. */
  lemma {:induction false} DeleteCharsConcat(a: string, b: string, cs: set<char>)
    ensures DeleteChars(a + b, cs) == DeleteChars(a, cs) + DeleteChars(b, cs)
    decreases |a|
  {
    if a == [] {
      assert a + b == b;
    } else {
      var head := if a[0] in cs then [] else [a[0]];
      DeleteCharsConcat(a[1..], b, cs);
      assert (a + b)[0] == a[0];
      assert (a + b)[1..] == a[1..] + b;
      DeleteCharsHead(a + b, cs);
      DeleteCharsHead(a, cs);
      AppendAssoc(head, DeleteChars(a[1..], cs), DeleteChars(b, cs));
    }
  }

  /** `s.startswith(prefix)`. */
  predicate StartsWith(s: string, prefix: string)
    ensures StartsWith(s, prefix) <==> |prefix| <= |s| && s == prefix + s[|prefix|..]
  {
    assert |prefix| <= |s| ==> s == s[..|prefix|] + s[|prefix|..];
    |prefix| <= |s| && s[..|prefix|] == prefix
  }

  /** `s.endswith(suffix)`; every string ends with the empty string. */
  predicate EndsWith(s: string, suffix: string)
    ensures EndsWith(s, suffix) <==> |suffix| <= |s| && s == s[..|s| - |suffix|] + suffix
  {
    assert |suffix| <= |s| ==> s == s[..|s| - |suffix|] + s[|s| - |suffix|..];
    |suffix| <= |s| && s[|s| - |suffix|..] == suffix
  }

  /** Python's `sub in s` on strings. */
  predicate Contains(s: string, sub: string)
    ensures StartsWith(s, sub) ==> Contains(s, sub)
    ensures Contains(s, sub) ==> |sub| <= |s|
    decreases |s|
  {
    StartsWith(s, sub) || (|s| > 0 && Contains(s[1..], sub))
  }

  /** A one-character string occurs only where its character does. */
  lemma {:induction false} ContainsChar(s: string, sub: string)
    requires |sub| == 1
    ensures Contains(s, sub) <==> sub[0] in s
    decreases |s|
  {
    if |s| > 0 {
      ContainsChar(s[1..], sub);
      assert StartsWith(s, sub) <==> s[0] == sub[0];
      assert sub[0] in s <==> s[0] == sub[0] || sub[0] in s[1..];
    }
  }

  /** `sub` occurs in `s` starting at index `i`. */
  predicate OccursAt(s: string, sub: string, i: int) {
    0 <= i <= |s| - |sub| && s[i..i + |sub|] == sub
  }

  /** `sub in s` holds exactly when `sub` occurs at some index of `s`. */
  lemma {:induction false} ContainsAt(s: string, sub: string)
    ensures Contains(s, sub) <==> exists i :: OccursAt(s, sub, i)
    decreases |s|
  {
    if StartsWith(s, sub) {
      assert OccursAt(s, sub, 0);
    } else if |s| > 0 {
      ContainsAt(s[1..], sub);
      if Contains(s[1..], sub) {
        var i :| OccursAt(s[1..], sub, i);
        assert s[1..][i..i + |sub|] == s[i + 1..i + 1 + |sub|];
        assert OccursAt(s, sub, i + 1);
      }
      if exists i :: OccursAt(s, sub, i) {
        var i :| OccursAt(s, sub, i);
        assert i != 0;
        assert s[1..][i - 1..i - 1 + |sub|] == s[i..i + |sub|];
        assert OccursAt(s[1..], sub, i - 1);
      }
    } else {
      assert forall i :: OccursAt(s, sub, i) ==> StartsWith(s, sub);
    }
  }

  /** `''.join(parts)`. */
  function Concat(parts: seq<string>): (r: string)
    ensures |parts| == 1 ==> r == parts[0]
  {
    if parts == [] then "" else Concat(parts[..|parts| - 1]) + parts[|parts| - 1]
  }

  lemma ConcatSnoc(parts: seq<string>, x: string)
    ensures Concat(parts + [x]) == Concat(parts) + x
  {
    assert (parts + [x])[..|parts|] == parts;
  }

  /** Joining works piecewise. */
  lemma {:induction false} ConcatAppend(a: seq<string>, b: seq<string>)
    ensures Concat(a + b) == Concat(a) + Concat(b)
    decreases |b|
  {
    if b == [] {
      assert a + b == a;
    } else {
      var init := b[..|b| - 1];
      var last := b[|b| - 1];
      assert a + b == (a + init) + [last];
      assert b == init + [last];
      ConcatAppend(a, init);
      ConcatSnoc(a + init, last);
      ConcatSnoc(init, last);
      AppendAssoc(Concat(a), Concat(init), last);
    }
  }

  lemma AppendAssoc<T>(a: seq<T>, b: seq<T>, c: seq<T>)
    ensures (a + b) + c == a + (b + c)
  {
  }
}
