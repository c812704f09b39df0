/**
 * `extractRefs`: the tokenizer that turns an attribute value into the ids it
 * mentions. It splits the value at white space, commas and semicolons, trims
 * each piece, and keeps the non-empty pieces that are known ids.
 */
module Refs {
  import opened Wrappers

  /**
   * The characters `\s` matches in a JavaScript regular expression; they are also
   * exactly the characters `String.prototype.trim` strips (white space and line
   * terminators of ECMAScript).
   */
  predicate IsSpace(c: char)
  {
    c == ' ' || ('\t' <= c <= '\r') || c == '\U{00A0}' || c == '\U{1680}' ||
    ('\U{2000}' <= c <= '\U{200A}') || c == '\U{2028}' || c == '\U{2029}' ||
    c == '\U{202F}' || c == '\U{205F}' || c == '\U{3000}' || c == '\U{FEFF}'
  }

  /** A character where the separator pattern (a run of white space, a comma or a semicolon) can match. */
  predicate IsSeparator(c: char)
  {
    IsSpace(c) || c == ',' || c == ';'
  }

  predicate NoSeparator(s: string)
  {
    forall i :: 0 <= i < |s| ==> !IsSeparator(s[i])
  }

  predicate NoSpace(s: string)
  {
    forall i :: 0 <= i < |s| ==> !IsSpace(s[i])
  }

  predicate AllSpace(s: string)
  {
    forall i :: 0 <= i < |s| ==> IsSpace(s[i])
  }

  /** The longest prefix of `s` without a separator: the text before the next match of the pattern. */
  function Word(s: string): (w: string)
    ensures |w| <= |s| && w == s[..|w|]
    ensures NoSeparator(w)
    ensures |w| < |s| ==> IsSeparator(s[|w|])
  {
    if s == [] || IsSeparator(s[0]) then [] else [s[0]] + Word(s[1..])
  }

  /** What remains once the pattern's white-space alternative, which is greedy, has consumed the white space at the front of `s`. */
  function DropSpaces(s: string): (r: string)
    ensures |r| <= |s| && r == s[|s| - |r|..]
    ensures AllSpace(s[..|s| - |r|])
    ensures r != [] ==> !IsSpace(r[0])
  {
    if s != [] && IsSpace(s[0]) then
      var r := DropSpaces(s[1..]);
      assert s[..|s| - |r|] == [s[0]] + s[1..][..|s[1..]| - |r|];
      r
    else s
  }

  /**
   * Splitting `s` at the separator pattern: the pieces between successive leftmost
   * matches; at a white-space character the match is the whole run of white space,
   * at `,` or `;` it is that one character. A separator at either end, or two
   * adjacent matches, leave an empty piece.
   */
  function Split(s: string): (r: seq<string>)
    ensures |r| >= 1
    ensures forall t :: t in r ==> NoSeparator(t)
    decreases |s|
  {
    var w := Word(s);
    var rest := s[|w|..];
    if rest == [] then [w]
    else if IsSpace(rest[0]) then [w] + Split(DropSpaces(rest))
    else [w] + Split(rest[1..])
  }

  /**
   * `String.prototype.trim`: the slice of `s` that is left once the white space
   * at both ends is removed, and that neither starts nor ends with white space.
   */
  function Trim(s: string): (r: string)
    ensures exists i, j :: 0 <= i <= j <= |s| && r == s[i..j] && AllSpace(s[..i]) && AllSpace(s[j..])
    ensures r == [] || (!IsSpace(r[0]) && !IsSpace(r[|r| - 1]))
    ensures NoSpace(s) ==> r == s
  {
    TrimIsSlice(s);
    TrimNoSpace(s);
    TrimEnd(DropSpaces(s))
  }

  /** Dropping the white space at the front, then at the back, leaves the middle slice of `s`. */
  lemma TrimIsSlice(s: string)
    ensures var r := TrimEnd(DropSpaces(s));
            exists i, j :: 0 <= i <= j <= |s| && r == s[i..j] && AllSpace(s[..i]) && AllSpace(s[j..])
  {
    var d := DropSpaces(s);
    var r := TrimEnd(d);
    var i := |s| - |d|;
    SliceOfSuffix(s, i, |r|);
    AllSpaceSame(d[|r|..], s[i + |r|..]);
  }

  /** Without white space there is nothing to trim. */
  lemma TrimNoSpace(s: string)
    ensures NoSpace(s) ==> TrimEnd(DropSpaces(s)) == s
  {
    if NoSpace(s) && s != [] {
      assert !IsSpace(s[0]) && !IsSpace(s[|s| - 1]);
    }
  }

  /** For `TrimIsSlice`: a prefix or suffix of a suffix of `s` is a slice of `s`. */
  lemma SliceOfSuffix(s: string, i: nat, n: nat)
    requires i + n <= |s|
    ensures s[i..][..n] == s[i..i + n] && s[i..][n..] == s[i + n..]
  {
  }

  /** For `TrimIsSlice`: carries `AllSpace` across an equality of strings the solver would otherwise look into. */
  lemma AllSpaceSame(a: string, b: string)
    requires a == b && AllSpace(a)
    ensures AllSpace(b)
  {
  }

  /** `s` without its trailing white space. */
  function TrimEnd(s: string): (r: string)
    ensures |r| <= |s| && r == s[..|r|]
    ensures AllSpace(s[|r|..])
    ensures r != [] ==> !IsSpace(r[|r| - 1])
  {
    if s != [] && IsSpace(s[|s| - 1]) then
      var r := TrimEnd(s[..|s| - 1]);
      assert s[|r|..] == s[..|s| - 1][|r|..] + [s[|s| - 1]];
      r
    else s
  }

  /** The trimming step: every piece trimmed, in order. */
  function TrimAll(ts: seq<string>): (r: seq<string>)
    ensures |r| == |ts| && forall k :: 0 <= k < |ts| ==> r[k] == Trim(ts[k])
  {
    if ts == [] then [] else [Trim(ts[0])] + TrimAll(ts[1..])
  }

  /** The filtering step: the non-empty tokens that are known ids, in order. */
  function Known(ts: seq<string>, ids: set<string>): (r: seq<string>)
    ensures forall t :: t in r ==> t != "" && t in ids && t in ts
    ensures forall t :: t in ts && t != "" && t in ids ==> t in r
    ensures |r| <= |ts|
  {
    if ts == [] then []
    else if ts[0] != "" && ts[0] in ids then [ts[0]] + Known(ts[1..], ids)
    else Known(ts[1..], ids)
  }

  /** `extractRefs`: nothing for a missing or empty value, else the known ids among its tokens. */
  function ExtractRefs(val: Option<string>, ids: set<string>): (r: seq<string>)
    ensures val.None? || val.value == "" ==> r == []
    ensures forall t :: t in r ==> t != "" && t in ids && NoSeparator(t)
  {
    if val.None? || val.value == "" then []
    else
      var pieces := Split(val.value);
      TrimAllIsIdentity(pieces);
      Known(TrimAll(pieces), ids)
  }

  /** Pieces produced by the split contain no white space, so trimming them changes nothing. */
  lemma TrimAllIsIdentity(ts: seq<string>)
    requires forall t :: t in ts ==> NoSeparator(t)
    ensures TrimAll(ts) == ts
  {
    forall k | 0 <= k < |ts| ensures TrimAll(ts)[k] == ts[k] {
      assert ts[k] in ts;
    }
  }

  // ----- reference definition: the maximal separator-free runs of a value -----

  /** The words of `s`: its maximal non-empty runs of non-separator characters, in order. */
  function Words(s: string): (r: seq<string>)
    decreases |s|
  {
    if s == [] then []
    else if IsSeparator(s[0]) then Words(s[1..])
    else
      var w := Word(s);
      [w] + Words(s[|w|..])
  }

  lemma {:induction false} WordsAreWords(s: string)
    ensures forall t :: t in Words(s) ==> t != "" && NoSeparator(t)
    decreases |s|
  {
    if s != [] {
      if IsSeparator(s[0]) {
        WordsAreWords(s[1..]);
      } else {
        WordsAreWords(s[|Word(s)|..]);
      }
    }
  }

  lemma {:induction false} KnownAppend(a: seq<string>, b: seq<string>, ids: set<string>)
    ensures Known(a + b, ids) == Known(a, ids) + Known(b, ids)
  {
    if a == [] {
      assert a + b == b;
    } else {
      assert (a + b)[0] == a[0];
      assert (a + b)[1..] == a[1..] + b;
      KnownAppend(a[1..], b, ids);
    }
  }

  /** Leading white space is a separator, so dropping it does not change the words. */
  lemma {:induction false} WordsDropSpaces(s: string)
    ensures Words(DropSpaces(s)) == Words(s)
    decreases |s|
  {
    if s != [] && IsSpace(s[0]) {
      WordsDropSpaces(s[1..]);
    }
  }

  /** Filtering the split pieces keeps exactly the known words: the empty pieces are what the filter drops. */
  lemma {:induction false} KnownSplitIsKnownWords(s: string, ids: set<string>)
    ensures Known(Split(s), ids) == Known(Words(s), ids)
    decreases |s|
  {
    var w := Word(s);
    var rest := s[|w|..];
    if rest == [] {
      if w == [] {
        assert Split(s) == [[]];
      } else {
        assert s[|w|..] == [];
        assert Words(s) == [w] + Words([]);
      }
    } else {
      var next := if IsSpace(rest[0]) then DropSpaces(rest) else rest[1..];
      assert Split(s) == [w] + Split(next);
      KnownSplitIsKnownWords(next, ids);
      KnownAppend([w], Split(next), ids);
      if IsSpace(rest[0]) {
        WordsDropSpaces(rest);
      }
      assert Words(next) == Words(rest);
      if w == [] {
        assert rest == s;
        assert Known([w], ids) == [];
      } else {
        assert Words(s) == [w] + Words(rest);
        KnownAppend([w], Words(rest), ids);
      }
    }
  }

  /**
   * `extractRefs` of a value is, in order, its words that are known ids: the
   * tokenizer neither invents, drops nor reorders tokens.
   */
  lemma ExtractRefsIsKnownWords(v: string, ids: set<string>)
    ensures ExtractRefs(Some(v), ids) == Known(Words(v), ids)
  {
    if v != "" {
      TrimAllIsIdentity(Split(v));
      KnownSplitIsKnownWords(v, ids);
    }
  }

  /** A known id with no separator in it, taken as a value, refers to itself and to nothing else. */
  lemma ExtractRefsOfId(v: string, ids: set<string>)
    requires v != "" && NoSeparator(v) && v in ids
    ensures ExtractRefs(Some(v), ids) == [v]
  {
    ExtractRefsIsKnownWords(v, ids);
    WordOfSeparatorFree(v);
    assert v[|v|..] == [];
    assert Words(v) == [v] + Words([]);
  }

  /** For `ExtractRefsOfId`: a separator-free value is a single word. */
  lemma {:induction false} WordOfSeparatorFree(s: string)
    requires NoSeparator(s)
    ensures Word(s) == s
  {
    if s != [] {
      WordOfSeparatorFree(s[1..]);
    }
  }

  /** A word is not cut short by what follows it when a separator follows it anyway. */
  lemma {:induction false} WordExtend(a: string, x: string)
    requires |Word(a)| < |a| || (x != [] && IsSeparator(x[0]))
    ensures Word(a + x) == Word(a)
  {
    if a != [] && !IsSeparator(a[0]) {
      assert (a + x)[1..] == a[1..] + x;
      WordExtend(a[1..], x);
    }
  }

  lemma {:induction false} WordsJoin(a: string, c: char, b: string)
    requires IsSeparator(c)
    ensures Words(a + [c] + b) == Words(a) + Words(b)
    decreases |a|
  {
    var s := a + [c] + b;
    if a == [] {
      assert s == [c] + b;
      assert s[1..] == b;
    } else if IsSeparator(a[0]) {
      assert s[1..] == a[1..] + [c] + b;
      WordsJoin(a[1..], c, b);
    } else {
      WordsJoin(a[|Word(a)|..], c, b);
      WordsJoinStep(a, c, b);
    }
  }

  /** The step of `WordsJoin` where `a` starts with a word. */
  lemma WordsJoinStep(a: string, c: char, b: string)
    requires IsSeparator(c) && a != [] && !IsSeparator(a[0])
    requires Words(a[|Word(a)|..] + [c] + b) == Words(a[|Word(a)|..]) + Words(b)
    ensures Words(a + [c] + b) == Words(a) + Words(b)
  {
    var s := a + [c] + b;
    var w := Word(a);
    WordExtend(a, [c] + b);
    assert s == a + ([c] + b) && s[0] == a[0];
    assert s[|w|..] == a[|w|..] + [c] + b;
    WordsCons(s);
    WordsCons(a);
  }

  /** For `WordsJoinStep`: a value that starts with a non-separator starts with its first word. */
  lemma WordsCons(s: string)
    requires s != [] && !IsSeparator(s[0])
    ensures Words(s) == [Word(s)] + Words(s[|Word(s)|..])
  {
  }

  /**
   * Joining two values with a separator joins their references: a list such as
   * `"a b"` or `"a,b"` refers to what `"a"` and `"b"` refer to, in that order.
   */
  lemma ExtractRefsJoin(a: string, c: char, b: string, ids: set<string>)
    requires IsSeparator(c)
    ensures ExtractRefs(Some(a + [c] + b), ids) == ExtractRefs(Some(a), ids) + ExtractRefs(Some(b), ids)
  {
    ExtractRefsIsKnownWords(a + [c] + b, ids);
    ExtractRefsIsKnownWords(a, ids);
    ExtractRefsIsKnownWords(b, ids);
    WordsJoin(a, c, b);
    KnownAppend(Words(a), Words(b), ids);
  }

  /** An id written twice in one value is referred to twice. */
  lemma ExtractRefsRepeated(t: string, ids: set<string>)
    requires t != "" && NoSeparator(t) && t in ids
    ensures ExtractRefs(Some(t + " " + t), ids) == [t, t]
  {
    assert t + " " + t == t + [' '] + t;
    ExtractRefsJoin(t, ' ', t, ids);
    ExtractRefsOfId(t, ids);
  }
}
