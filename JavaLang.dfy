/** The few pieces of java.lang behaviour that the identity mapping relies on:
    String.trim, String.split with the regex `\s*,\s*`, String.format's "%s"
    of a possibly-null argument, and the two exceptions the core can raise.
    Positions are indices into one fixed string, as in java.util.regex. */
module JavaLang {
  import opened Wrappers

  /** The exceptions the modelled code can throw. */
  datatype JavaException =
    | IllegalStateException(message: string)
    | NullPointerException

  /** Two notions of "blank character" that Java uses: the regex class `\s`
      (space, tab, line feed, vertical tab, form feed, carriage return) and
      the characters String.trim removes (every code point up to U+0020). */
  datatype SpaceClass = RegexSpace | TrimSpace

  predicate IsSpace(cls: SpaceClass, c: char) {
    match cls
    case RegexSpace =>
      c == ' ' || c == '\t' || c == '\n' || c == '\r' || c as int == 0x0B || c as int == 0x0C
    case TrimSpace => c as int <= 0x20
  }

  predicate AllSpace(cls: SpaceClass, s: string) {
    forall k :: 0 <= k < |s| ==> IsSpace(cls, s[k])
  }

  predicate NoComma(s: string) {
    forall k :: 0 <= k < |s| ==> s[k] != ','
  }

  /** The end of the blank run that starts at `from`: how far a greedy `\s*`
      (or trim's scan from the left) gets. */
  function BlankRunAfter(cls: SpaceClass, s: string, from: nat): (q: nat)
    requires from <= |s|
    ensures from <= q <= |s|
    ensures q < |s| ==> !IsSpace(cls, s[q])
    decreases |s| - from
  {
    if from < |s| && IsSpace(cls, s[from]) then BlankRunAfter(cls, s, from + 1) else from
  }

  /** The start of the blank run that ends at `hi`, never going below `lo`. */
  function BlankRunBefore(cls: SpaceClass, s: string, lo: nat, hi: nat): (e: nat)
    requires lo <= hi <= |s|
    ensures lo <= e <= hi
    ensures lo < e ==> !IsSpace(cls, s[e - 1])
    decreases hi - lo
  {
    if lo < hi && IsSpace(cls, s[hi - 1]) then BlankRunBefore(cls, s, lo, hi - 1) else hi
  }

  /** What BlankRunAfter skips is blank. */
  lemma {:induction false} BlankRunAfterSkipsBlanks(cls: SpaceClass, s: string, from: nat, i: nat)
    requires from <= |s|
    requires from <= i < BlankRunAfter(cls, s, from)
    ensures IsSpace(cls, s[i])
    decreases |s| - from
  {
    if i > from {
      BlankRunAfterSkipsBlanks(cls, s, from + 1, i);
    }
  }

  /** What BlankRunBefore skips is blank. */
  lemma {:induction false} BlankRunBeforeSkipsBlanks(cls: SpaceClass, s: string, lo: nat, hi: nat, i: nat)
    requires lo <= hi <= |s|
    requires BlankRunBefore(cls, s, lo, hi) <= i < hi
    ensures IsSpace(cls, s[i])
    decreases hi - lo
  {
    if i < hi - 1 {
      BlankRunBeforeSkipsBlanks(cls, s, lo, hi - 1, i);
    }
  }

  /** String.trim(): the characters up to U+0020 are dropped from both ends.
      Nothing is added, and a string with no such character at either end
      comes back unchanged. */
  function Trim(s: string): (r: string)
    ensures |r| <= |s|
    ensures s == [] || (!IsSpace(TrimSpace, s[0]) && !IsSpace(TrimSpace, s[|s| - 1])) ==> r == s
  {
    var b := BlankRunAfter(TrimSpace, s, 0);
    s[b..BlankRunBefore(TrimSpace, s, b, |s|)]
  }

  /** `s.trim().isEmpty()` holds exactly when trim would remove every
      character of `s`; otherwise what trim keeps starts and ends with a
      character above U+0020. */
  lemma TrimEmptyIff(s: string)
    ensures Trim(s) == [] <==> AllSpace(TrimSpace, s)
    ensures Trim(s) != [] ==> !IsSpace(TrimSpace, Trim(s)[0]) && !IsSpace(TrimSpace, Trim(s)[|Trim(s)| - 1])
  {
    var b := BlankRunAfter(TrimSpace, s, 0);
    var e := BlankRunBefore(TrimSpace, s, b, |s|);
    forall i | 0 <= i < b ensures IsSpace(TrimSpace, s[i]) {
      BlankRunAfterSkipsBlanks(TrimSpace, s, 0, i);
    }
    if b < |s| {
      if e == b {
        BlankRunBeforeSkipsBlanks(TrimSpace, s, b, |s|, b);
      }
      assert Trim(s)[0] == s[b];
    }
  }

  /** Trimming twice is trimming once. */
  lemma TrimIdempotent(s: string)
    ensures Trim(Trim(s)) == Trim(s)
  {
    TrimEmptyIff(s);
  }

  /** String.format("%s", x): a null argument prints as "null". */
  function FormatArg(x: Option<string>): (r: string)
    ensures x.Some? ==> r == x.value
    ensures x.None? ==> r == "null"
  {
    match x
    case Some(s) => s
    case None => "null"
  }

  /** ASCII letters compared without regard to case, as equalsIgnoreCase
      does for the letters of "true". */
  predicate SameLetterIgnoringCase(c: char, lower: char)
    requires 'a' <= lower <= 'z'
  {
    c == lower || c as int == lower as int - 32
  }

  /** An ASCII capital letter as its small letter; any other character as
      itself. */
  function LowerAscii(c: char): char {
    if 'A' <= c <= 'Z' then (c as int + 32) as char else c
  }

  lemma SameLetterLower(c: char, lower: char)
    requires 'a' <= lower <= 'z'
    ensures SameLetterIgnoringCase(c, lower) <==> LowerAscii(c) == lower
  {
  }

  /** Boolean.parseBoolean: `"true".equalsIgnoreCase(s)`, so a null or any
      other string is false. Equivalently: four characters that lower-case
      to "true". */
  function ParseBoolean(s: string): (r: bool)
    ensures r <==> |s| == 4 && forall i :: 0 <= i < 4 ==> LowerAscii(s[i]) == "true"[i]
  {
    if |s| == 4 then
      SameLetterLower(s[0], 't');
      SameLetterLower(s[1], 'r');
      SameLetterLower(s[2], 'u');
      SameLetterLower(s[3], 'e');
      SameLetterIgnoringCase(s[0], 't') && SameLetterIgnoringCase(s[1], 'r')
      && SameLetterIgnoringCase(s[2], 'u') && SameLetterIgnoringCase(s[3], 'e')
    else false
  }

  /** Every capitalisation of "true" reads as true; other spellings, even
      with a surrounding blank, read as false. */
  lemma ParseBooleanExamples()
    ensures ParseBoolean("true") && ParseBoolean("TRUE") && ParseBoolean("True") && ParseBoolean("tRuE")
    ensures !ParseBoolean("false") && !ParseBoolean("yes") && !ParseBoolean("1")
    ensures !ParseBoolean(" true") && !ParseBoolean("") && !ParseBoolean("truee")
  {
  }

  /** The elements joined with `sep` between neighbours. */
  function Join(items: seq<string>, sep: string): string
  {
    if |items| == 0 then ""
    else if |items| == 1 then items[0]
    else items[0] + sep + Join(items[1..], sep)
  }

  /** The first comma at or after `from`, or -1: where the next match of
      `\s*,\s*` is anchored. */
  function CommaFrom(s: string, from: nat): (c: int)
    requires from <= |s|
    ensures c == -1 || (from <= c < |s| && s[c] == ',')
    decreases |s| - from
  {
    if from == |s| then -1
    else if s[from] == ',' then from
    else CommaFrom(s, from + 1)
  }

  /** CommaFrom finds the first comma: none lies between `from` and it (or
      after `from` at all, when it answers -1). */
  lemma {:induction false} CommaFromIsFirst(s: string, from: nat, k: nat)
    requires from <= k < |s|
    requires CommaFrom(s, from) < 0 || k < CommaFrom(s, from)
    ensures s[k] != ','
    decreases |s| - from
  {
    if k > from {
      CommaFromIsFirst(s, from + 1, k);
    }
  }

  /** The pieces Pattern.split collects once the search stands at `from`:
      the text up to the next match and the pieces after it, or, when no match
      is left, the rest of the string. A match of `\s*,\s*` is anchored at the
      first comma; its `\s*` before the comma reaches back over the blanks
      just before it (not before `from`), the greedy `\s*` after it takes all
      blanks that follow, and the search resumes where the match ends. */
  function PiecesFrom(s: string, from: nat): (r: seq<string>)
    requires from <= |s|
    ensures |r| >= 1
    ensures |r| == 1 <==> CommaFrom(s, from) < 0
    decreases |s| - from
  {
    var c := CommaFrom(s, from);
    if c < 0 then [s[from..]]
    else [s[from..BlankRunBefore(RegexSpace, s, from, c)]] + PiecesFrom(s, BlankRunAfter(RegexSpace, s, c + 1))
  }

  /** The commas left from `from` on, counted. */
  function CommasFrom(s: string, from: nat): nat
    requires from <= |s|
  {
    multiset(s[from..])[',']
  }

  /** Cutting one match out of the text removes exactly one comma: the
      matched comma; the piece before it and the blanks after it have none. */
  lemma CommasAroundMatch(s: string, from: nat, c: nat, q: nat)
    requires from <= c < q <= |s| && s[c] == ','
    requires forall i :: from <= i < c ==> s[i] != ','
    requires forall i :: c < i < q ==> IsSpace(RegexSpace, s[i])
    ensures CommasFrom(s, from) == CommasFrom(s, q) + 1
  {
    SliceCat(s, from, c);
    SliceCat(s, c, q);
    assert s[c..q] == [','] + s[c + 1..q];
    assert ',' !in s[from..c];
    assert ',' !in s[c + 1..q];
    assert s[from..] == s[from..c] + ([','] + s[c + 1..q]) + s[q..];
  }

  /** The scan yields one piece more than there are commas: every comma is
      consumed by exactly one match. */
  lemma {:induction false} PiecesCountCommas(s: string, from: nat)
    requires from <= |s|
    ensures |PiecesFrom(s, from)| == CommasFrom(s, from) + 1
    decreases |s| - from
  {
    var c := CommaFrom(s, from);
    if c < 0 {
      forall k | from <= k < |s| ensures s[k] != ',' {
        CommaFromIsFirst(s, from, k);
      }
      assert ',' !in s[from..];
    } else {
      var q := BlankRunAfter(RegexSpace, s, c + 1);
      forall k | from <= k < c ensures s[k] != ',' {
        CommaFromIsFirst(s, from, k);
      }
      forall k | c < k < q ensures IsSpace(RegexSpace, s[k]) {
        BlankRunAfterSkipsBlanks(RegexSpace, s, c + 1, k);
      }
      CommasAroundMatch(s, from, c, q);
      PiecesCountCommas(s, q);
    }
  }

  /** No piece contains a comma: every comma is consumed by a match. */
  lemma {:induction false} PiecesCommaFree(s: string, from: nat, k: nat)
    requires from <= |s|
    requires k < |PiecesFrom(s, from)|
    ensures NoComma(PiecesFrom(s, from)[k])
    decreases |s| - from
  {
    var c := CommaFrom(s, from);
    if c < 0 {
      var p := s[from..];
      forall i | 0 <= i < |p| ensures p[i] != ',' {
        CommaFromIsFirst(s, from, from + i);
      }
    } else {
      var e := BlankRunBefore(RegexSpace, s, from, c);
      var q := BlankRunAfter(RegexSpace, s, c + 1);
      assert PiecesFrom(s, from) == [s[from..e]] + PiecesFrom(s, q);
      if k == 0 {
        var p := s[from..e];
        forall i | 0 <= i < |p| ensures p[i] != ',' {
          CommaFromIsFirst(s, from, from + i);
        }
      } else {
        PiecesCommaFree(s, q, k - 1);
      }
    }
  }

  /** Blanks after a comma are consumed by the match: every piece but the
      first is empty or starts with a non-blank. */
  lemma {:induction false} PiecesNoLeadingBlank(s: string, from: nat, k: nat)
    requires from <= |s|
    requires 0 < k < |PiecesFrom(s, from)|
    ensures var p := PiecesFrom(s, from)[k]; p == [] || !IsSpace(RegexSpace, p[0])
    decreases |s| - from
  {
    var c := CommaFrom(s, from);
    var e := BlankRunBefore(RegexSpace, s, from, c);
    var q := BlankRunAfter(RegexSpace, s, c + 1);
    assert PiecesFrom(s, from) == [s[from..e]] + PiecesFrom(s, q);
    if k > 1 {
      PiecesNoLeadingBlank(s, q, k - 1);
    } else {
      var p := PiecesFrom(s, q)[0];
      assert p == [] || p[0] == s[q];
    }
  }

  /** Blanks before a comma are consumed by the match: every piece but the
      last is empty or ends with a non-blank. */
  lemma {:induction false} PiecesNoTrailingBlank(s: string, from: nat, k: nat)
    requires from <= |s|
    requires k < |PiecesFrom(s, from)| - 1
    ensures var p := PiecesFrom(s, from)[k]; p == [] || !IsSpace(RegexSpace, p[|p| - 1])
    decreases |s| - from
  {
    var c := CommaFrom(s, from);
    var e := BlankRunBefore(RegexSpace, s, from, c);
    var q := BlankRunAfter(RegexSpace, s, c + 1);
    assert PiecesFrom(s, from) == [s[from..e]] + PiecesFrom(s, q);
    if k > 0 {
      PiecesNoTrailingBlank(s, q, k - 1);
    }
  }

  /** Pattern.split with limit 0 discards empty strings at the end of the
      result. */
  function DropTrailingEmpty(ps: seq<string>): (r: seq<string>)
    ensures r <= ps
    ensures r == [] || r[|r| - 1] != []
    ensures forall k :: |r| <= k < |ps| ==> ps[k] == []
  {
    if |ps| > 0 && ps[|ps| - 1] == [] then DropTrailingEmpty(ps[..|ps| - 1]) else ps
  }

  /** s.split("\\s*,\\s*"). Without any comma nothing matches and the result
      is `[s]` itself, even for the empty string; otherwise it is the pieces
      between matches, less the empty pieces at the end. */
  function SplitOnCommas(s: string): (r: seq<string>)
    ensures CommaFrom(s, 0) < 0 ==> r == [s]
    ensures CommaFrom(s, 0) >= 0 ==> r <= PiecesFrom(s, 0) && (r == [] || r[|r| - 1] != [])
    ensures CommaFrom(s, 0) >= 0 ==> forall k :: |r| <= k < |PiecesFrom(s, 0)| ==> PiecesFrom(s, 0)[k] == []
  {
    if CommaFrom(s, 0) < 0 then [s] else DropTrailingEmpty(PiecesFrom(s, 0))
  }

  /** Every element of a split is free of commas. */
  lemma SplitOnCommasCommaFree(s: string, p: string)
    requires p in SplitOnCommas(s)
    ensures NoComma(p)
  {
    var r := SplitOnCommas(s);
    var k :| 0 <= k < |r| && r[k] == p;
    if CommaFrom(s, 0) < 0 {
      forall i | 0 <= i < |s| ensures s[i] != ',' {
        CommaFromIsFirst(s, 0, i);
      }
    } else {
      assert r[k] == PiecesFrom(s, 0)[k];
      PiecesCommaFree(s, 0, k);
    }
  }

  /** A group or role name that survives a split unchanged: non-empty, no
      comma, no regex blank at either end. */
  predicate IsCleanItem(g: string) {
    g != [] && NoComma(g) && !IsSpace(RegexSpace, g[0]) && !IsSpace(RegexSpace, g[|g| - 1])
  }

  lemma {:induction false} CommaFromAt(s: string, from: nat, c: nat)
    requires from <= c < |s| && s[c] == ','
    requires forall i :: from <= i < c ==> s[i] != ','
    ensures CommaFrom(s, from) == c
    decreases c - from
  {
    if from < c {
      CommaFromAt(s, from + 1, c);
    }
  }

  lemma {:induction false} CommaFromNone(s: string, from: nat)
    requires from <= |s|
    requires forall i :: from <= i < |s| ==> s[i] != ','
    ensures CommaFrom(s, from) == -1
    decreases |s| - from
  {
    if from < |s| {
      CommaFromNone(s, from + 1);
    }
  }

  lemma {:induction false} BlankRunAfterAt(s: string, from: nat, q: nat)
    requires from <= q <= |s|
    requires forall i :: from <= i < q ==> IsSpace(RegexSpace, s[i])
    requires q < |s| ==> !IsSpace(RegexSpace, s[q])
    ensures BlankRunAfter(RegexSpace, s, from) == q
    decreases q - from
  {
    if from < q {
      BlankRunAfterAt(s, from + 1, q);
    }
  }

  lemma {:induction false} BlankRunBeforeAt(s: string, lo: nat, e: nat, hi: nat)
    requires lo < e <= hi <= |s|
    requires !IsSpace(RegexSpace, s[e - 1])
    requires forall i :: e <= i < hi ==> IsSpace(RegexSpace, s[i])
    ensures BlankRunBefore(RegexSpace, s, lo, hi) == e
    decreases hi - e
  {
    if e < hi {
      BlankRunBeforeAt(s, lo, e, hi - 1);
    }
  }

  /** One match: a comma at `c`, the non-blank `s[e - 1]` before the blanks
      that precede it, and the blanks after it up to `q`. */
  lemma PiecesStep(s: string, from: nat, e: nat, c: nat, q: nat)
    requires from < e <= c < q <= |s| && s[c] == ','
    requires forall i :: from <= i < c ==> s[i] != ','
    requires !IsSpace(RegexSpace, s[e - 1])
    requires forall i :: e <= i < c ==> IsSpace(RegexSpace, s[i])
    requires forall i :: c < i < q ==> IsSpace(RegexSpace, s[i])
    requires q < |s| ==> !IsSpace(RegexSpace, s[q])
    ensures PiecesFrom(s, from) == [s[from..e]] + PiecesFrom(s, q)
  {
    CommaFromAt(s, from, c);
    BlankRunBeforeAt(s, from, e, c);
    BlankRunAfterAt(s, c + 1, q);
  }

  /** Splitting the text that follows `from` into two parts. */
  lemma SliceSplit(s: string, from: nat, a: string, b: string)
    requires from <= |s| && s[from..] == a + b
    ensures from + |a| <= |s|
    ensures s[from..from + |a|] == a && s[from + |a|..] == b
  {
    assert s[from..][..|a|] == a;
    assert s[from..][|a|..] == b;
  }

  /** A comma-free part of `s` has no comma at any of its positions. */
  lemma SliceNoComma(s: string, lo: nat, a: string)
    requires lo + |a| <= |s| && s[lo..lo + |a|] == a && NoComma(a)
    ensures forall i :: lo <= i < lo + |a| ==> s[i] != ','
  {
    forall i | lo <= i < lo + |a| ensures s[i] != ',' {
      assert s[i] == a[i - lo];
    }
  }

  /** A blank part of `s` is blank at each of its positions. */
  lemma SliceAllSpace(s: string, lo: nat, a: string)
    requires lo + |a| <= |s| && s[lo..lo + |a|] == a && AllSpace(RegexSpace, a)
    ensures forall i :: lo <= i < lo + |a| ==> IsSpace(RegexSpace, s[i])
  {
    forall i | lo <= i < lo + |a| ensures IsSpace(RegexSpace, s[i]) {
      assert s[i] == a[i - lo];
    }
  }

  /** Where the parts of `g + left + "," + right + rest` lie once placed at
      `from`: the conditions of one match of the split. */
  lemma StepLayout(s: string, from: nat, g: string, left: string, right: string, rest: string)
    requires from <= |s|
    requires IsCleanItem(g) && AllSpace(RegexSpace, left) && AllSpace(RegexSpace, right)
    requires rest != [] && !IsSpace(RegexSpace, rest[0])
    requires s[from..] == g + (left + ("," + (right + rest)))
    ensures from < from + |g| <= from + |g| + |left| < from + |g| + |left| + 1 + |right| < |s|
    ensures s[from + |g| + |left|] == ','
    ensures s[from..from + |g|] == g
    ensures s[from + |g| + |left| + 1 + |right|..] == rest
    ensures forall i :: from <= i < from + |g| + |left| ==> s[i] != ','
    ensures !IsSpace(RegexSpace, s[from + |g| - 1])
    ensures forall i :: from + |g| <= i < from + |g| + |left| ==> IsSpace(RegexSpace, s[i])
    ensures forall i :: from + |g| + |left| < i < from + |g| + |left| + 1 + |right| ==> IsSpace(RegexSpace, s[i])
    ensures !IsSpace(RegexSpace, s[from + |g| + |left| + 1 + |right|])
  {
    var e := from + |g|;
    SliceSplit(s, from, g, left + ("," + (right + rest)));
    var c := e + |left|;
    SliceSplit(s, e, left, "," + (right + rest));
    SliceSplit(s, c, ",", right + rest);
    var q := c + 1 + |right|;
    SliceSplit(s, c + 1, right, rest);
    assert s[c] == s[c..c + 1][0];
    assert s[q] == s[q..][0];
    assert s[e - 1] == g[|g| - 1];
    SliceNoComma(s, from, g);
    SliceAllSpace(s, e, left);
    SliceAllSpace(s, c + 1, right);
  }

  /** What one match of `\s*,\s*` consumes: the blanks before the comma,
      the comma, and the blanks after it. */
  datatype Separator = Separator(before: string, after: string) {
    function Text(): string {
      before + "," + after
    }
  }

  predicate IsBlankSeparator(sep: Separator) {
    AllSpace(RegexSpace, sep.before) && AllSpace(RegexSpace, sep.after)
  }

  /** The elements with the k-th separator between element k and k + 1. */
  function JoinWith(items: seq<string>, seps: seq<Separator>): string
    requires |items| == |seps| + 1
    decreases |seps|
  {
    if |seps| == 0 then items[0]
    else items[0] + seps[0].Text() + JoinWith(items[1..], seps[1..])
  }

  /** A joined list of two or more elements: its first element, the first
      separator, and the join of the rest, which starts with the second
      element's first character. */
  lemma JoinUnfold(items: seq<string>, seps: seq<Separator>)
    requires |items| == |seps| + 1 && |seps| >= 1 && items[1] != []
    ensures var rest := JoinWith(items[1..], seps[1..]);
      && JoinWith(items, seps) == items[0] + (seps[0].before + ("," + (seps[0].after + rest)))
      && rest != [] && rest[0] == items[1][0]
  {
    var rest := JoinWith(items[1..], seps[1..]);
    assert items[0] + seps[0].Text() + rest == items[0] + (seps[0].before + ("," + (seps[0].after + rest)));
    if |seps| > 1 {
      assert rest == items[1] + seps[1].Text() + JoinWith(items[2..], seps[2..]);
    }
  }

  /** The one-element case of PiecesOfJoin. */
  lemma PiecesOfSingle(s: string, from: nat, g: string)
    requires from <= |s| && s[from..] == g && NoComma(g)
    ensures PiecesFrom(s, from) == [g]
  {
    assert forall i :: from <= i < |s| ==> s[i] == g[i - from];
    CommaFromNone(s, from);
  }

  /** The first element of a joined list of two or more is its first piece;
      the remaining pieces are read where the join of the rest begins. */
  lemma {:induction false} PiecesOfJoinStep(s: string, from: nat, items: seq<string>, seps: seq<Separator>) returns (q: nat)
    requires from <= |s|
    requires |items| == |seps| + 1 && |seps| >= 1
    requires IsCleanItem(items[0]) && IsCleanItem(items[1]) && IsBlankSeparator(seps[0])
    requires s[from..] == JoinWith(items, seps)
    ensures q <= |s| && s[q..] == JoinWith(items[1..], seps[1..])
    ensures PiecesFrom(s, from) == [items[0]] + PiecesFrom(s, q)
  {
    JoinUnfold(items, seps);
    q := PiecesOfLayout(s, from, items[0], seps[0].before, seps[0].after, JoinWith(items[1..], seps[1..]));
  }

  /** A clean piece, a blank separator and a rest that starts with a non-blank:
      the first piece is the clean one and the scan resumes at the rest. */
  lemma PiecesOfLayout(s: string, from: nat, g: string, left: string, right: string, rest: string) returns (q: nat)
    requires from <= |s|
    requires IsCleanItem(g) && AllSpace(RegexSpace, left) && AllSpace(RegexSpace, right)
    requires rest != [] && !IsSpace(RegexSpace, rest[0])
    requires s[from..] == g + (left + ("," + (right + rest)))
    ensures q <= |s| && s[q..] == rest
    ensures PiecesFrom(s, from) == [g] + PiecesFrom(s, q)
  {
    StepLayout(s, from, g, left, right, rest);
    var e := from + |g|;
    var c := e + |left|;
    q := c + 1 + |right|;
    LayoutPieces(s, from, g, e, c, q);
  }

  /** PiecesStep, with the first piece given by name. */
  lemma LayoutPieces(s: string, from: nat, g: string, e: nat, c: nat, q: nat)
    requires from < e <= c < q <= |s| && s[c] == ','
    requires s[from..e] == g
    requires forall i :: from <= i < c ==> s[i] != ','
    requires !IsSpace(RegexSpace, s[e - 1])
    requires forall i :: e <= i < c ==> IsSpace(RegexSpace, s[i])
    requires forall i :: c < i < q ==> IsSpace(RegexSpace, s[i])
    requires q < |s| ==> !IsSpace(RegexSpace, s[q])
    ensures PiecesFrom(s, from) == [g] + PiecesFrom(s, q)
  {
    PiecesStep(s, from, e, c, q);
  }

  /** The pieces of a joined list, read from where the list starts, are the
      list itself. */
  lemma {:induction false} PiecesOfJoin(s: string, from: nat, items: seq<string>, seps: seq<Separator>)
    requires from <= |s|
    requires |items| == |seps| + 1
    requires forall g :: g in items ==> IsCleanItem(g)
    requires forall k :: 0 <= k < |seps| ==> IsBlankSeparator(seps[k])
    requires s[from..] == JoinWith(items, seps)
    ensures PiecesFrom(s, from) == items
    decreases |seps|
  {
    assert items[0] in items;
    if |seps| == 0 {
      PiecesOfSingle(s, from, items[0]);
    } else {
      assert items[1] in items;
      var q := PiecesOfJoinStep(s, from, items, seps);
      assert forall h :: h in items[1..] ==> h in items;
      assert forall k :: 0 <= k < |seps[1..]| ==> seps[1..][k] == seps[k + 1];
      PiecesOfJoin(s, q, items[1..], seps[1..]);
      assert items == [items[0]] + items[1..];
    }
  }

  /** Round trip: names that are non-empty, comma-free and not padded with
      blanks, joined by commas each with its own blanks on either side,
      split back into exactly the same list. */
  lemma {:induction false} SplitJoinRoundTrip(items: seq<string>, seps: seq<Separator>)
    requires |items| == |seps| + 1
    requires forall g :: g in items ==> IsCleanItem(g)
    requires forall k :: 0 <= k < |seps| ==> IsBlankSeparator(seps[k])
    ensures SplitOnCommas(JoinWith(items, seps)) == items
  {
    var s := JoinWith(items, seps);
    assert s[0..] == s;
    PiecesOfJoin(s, 0, items, seps);
    assert items[|items| - 1] in items;
    if |seps| == 0 {
      assert s == items[0];
      CommaFromNone(s, 0);
    }
  }

  /** The text each match consumes, in order, from `from` on. */
  function MatchedSeparators(s: string, from: nat): (r: seq<Separator>)
    requires from <= |s|
    ensures r == [] <==> CommaFrom(s, from) < 0
    decreases |s| - from
  {
    var c := CommaFrom(s, from);
    if c < 0 then []
    else
      var e := BlankRunBefore(RegexSpace, s, from, c);
      var q := BlankRunAfter(RegexSpace, s, c + 1);
      [Separator(s[e..c], s[c + 1..q])] + MatchedSeparators(s, q)
  }

  lemma SliceCat(s: string, a: nat, b: nat)
    requires a <= b <= |s|
    ensures s[a..] == s[a..b] + s[b..]
  {
  }

  /** A stretch of blanks cut out of `s` is all blank. */
  lemma SliceAllBlank(s: string, lo: nat, hi: nat)
    requires lo <= hi <= |s|
    requires forall i :: lo <= i < hi ==> IsSpace(RegexSpace, s[i])
    ensures AllSpace(RegexSpace, s[lo..hi])
  {
    assert forall i :: 0 <= i < hi - lo ==> s[lo..hi][i] == s[lo + i];
  }

  /** Cutting the text from `from` at e, around the comma at c, and at q. */
  lemma SliceAroundComma(s: string, from: nat, e: nat, c: nat, q: nat)
    requires from <= e <= c < q <= |s| && s[c] == ','
    ensures s[from..] == s[from..e] + (s[e..c] + "," + s[c + 1..q]) + s[q..]
  {
    var a, b, m, d := s[from..e], s[e..c], s[c + 1..q], s[q..];
    SliceCat(s, from, e);
    SliceCat(s, e, c);
    SliceCat(s, c, c + 1);
    SliceCat(s, c + 1, q);
    assert s[c..c + 1] == ",";
    assert s[from..] == a + (b + ("," + (m + d)));
    assert a + (b + ("," + (m + d))) == a + (b + "," + m) + d;
  }

  /** A match at positions e (blanks start), c (the comma) and q (where the
      match ends): what it consumes is blanks around the comma, and the text
      from `from` is the piece before it, the match, and what follows. */
  lemma MatchLayoutAt(s: string, from: nat, e: nat, c: nat, q: nat)
    requires from <= e <= c < q <= |s| && s[c] == ','
    requires forall i :: e <= i < c ==> IsSpace(RegexSpace, s[i])
    requires forall i :: c < i < q ==> IsSpace(RegexSpace, s[i])
    ensures IsBlankSeparator(Separator(s[e..c], s[c + 1..q]))
    ensures s[from..] == s[from..e] + Separator(s[e..c], s[c + 1..q]).Text() + s[q..]
  {
    SliceAllBlank(s, e, c);
    SliceAllBlank(s, c + 1, q);
    SliceAroundComma(s, from, e, c, q);
  }

  /** One step of the scan with its match written out. */
  lemma RejoinStep(s: string, from: nat) returns (p: string, sep: Separator, q: nat)
    requires from <= |s| && CommaFrom(s, from) >= 0
    ensures from < q <= |s|
    ensures PiecesFrom(s, from) == [p] + PiecesFrom(s, q)
    ensures MatchedSeparators(s, from) == [sep] + MatchedSeparators(s, q)
    ensures IsBlankSeparator(sep)
    ensures s[from..] == p + sep.Text() + s[q..]
  {
    var c := CommaFrom(s, from);
    var e := BlankRunBefore(RegexSpace, s, from, c);
    q := BlankRunAfter(RegexSpace, s, c + 1);
    p := s[from..e];
    sep := Separator(s[e..c], s[c + 1..q]);
    forall i | e <= i < c ensures IsSpace(RegexSpace, s[i]) {
      BlankRunBeforeSkipsBlanks(RegexSpace, s, from, c, i);
    }
    forall i | c < i < q ensures IsSpace(RegexSpace, s[i]) {
      BlankRunAfterSkipsBlanks(RegexSpace, s, c + 1, i);
    }
    MatchLayoutAt(s, from, e, c, q);
  }

  lemma JoinWithCons(x: string, sep: Separator, items: seq<string>, seps: seq<Separator>)
    requires |items| == |seps| + 1
    ensures JoinWith([x] + items, [sep] + seps) == x + sep.Text() + JoinWith(items, seps)
  {
    assert ([x] + items)[1..] == items;
    assert ([sep] + seps)[1..] == seps;
  }

  /** One separator fewer than pieces: every match sits between two. */
  lemma {:induction false} MatchedSeparatorsLength(s: string, from: nat)
    requires from <= |s|
    ensures |MatchedSeparators(s, from)| + 1 == |PiecesFrom(s, from)|
    decreases |s| - from
  {
    if CommaFrom(s, from) >= 0 {
      var p, sep, q := RejoinStep(s, from);
      MatchedSeparatorsLength(s, q);
    }
  }

  /** What a match consumes is only blanks around one comma. */
  lemma {:induction false} MatchedSeparatorsBlank(s: string, from: nat, k: nat)
    requires from <= |s| && k < |MatchedSeparators(s, from)|
    ensures IsBlankSeparator(MatchedSeparators(s, from)[k])
    decreases |s| - from
  {
    var p, sep, q := RejoinStep(s, from);
    if k > 0 {
      MatchedSeparatorsBlank(s, q, k - 1);
    }
  }

  /** The reverse direction: the pieces, rejoined with what each match
      consumed, give back the text. */
  lemma {:induction false} PiecesRejoin(s: string, from: nat)
    requires from <= |s|
    ensures |MatchedSeparators(s, from)| + 1 == |PiecesFrom(s, from)|
    ensures s[from..] == JoinWith(PiecesFrom(s, from), MatchedSeparators(s, from))
    decreases |s| - from, 1
  {
    MatchedSeparatorsLength(s, from);
    if CommaFrom(s, from) >= 0 {
      PiecesRejoinMatch(s, from);
    } else {
      PiecesRejoinLast(s, from);
    }
  }

  /** PiecesRejoin when no match is left: the rest is one piece. */
  lemma PiecesRejoinLast(s: string, from: nat)
    requires from <= |s| && CommaFrom(s, from) < 0
    ensures s[from..] == JoinWith(PiecesFrom(s, from), MatchedSeparators(s, from))
  {
    assert PiecesFrom(s, from) == [s[from..]];
    assert MatchedSeparators(s, from) == [];
  }

  /** PiecesRejoin across one match. */
  lemma {:induction false} PiecesRejoinMatch(s: string, from: nat)
    requires from <= |s| && CommaFrom(s, from) >= 0
    requires |MatchedSeparators(s, from)| + 1 == |PiecesFrom(s, from)|
    ensures s[from..] == JoinWith(PiecesFrom(s, from), MatchedSeparators(s, from))
    decreases |s| - from, 0
  {
    var p, sep, q := RejoinStep(s, from);
    var ps := PiecesFrom(s, q);
    var ms := MatchedSeparators(s, q);
    PiecesRejoin(s, q);
    JoinWithCons(p, sep, ps, ms);
  }

  /** Split and rejoin: Pattern.split removes nothing but what its matches
      consume (blanks around each comma, and the comma) and the empty pieces
      at the end. Blanks at the outer ends of the text, or not next to a
      comma, stay in the pieces. */
  lemma SplitRejoin(s: string)
    ensures SplitOnCommas(s) <= PiecesFrom(s, 0)
    ensures forall k :: |SplitOnCommas(s)| <= k < |PiecesFrom(s, 0)| ==> PiecesFrom(s, 0)[k] == ""
    ensures |MatchedSeparators(s, 0)| + 1 == |PiecesFrom(s, 0)|
    ensures forall k :: 0 <= k < |MatchedSeparators(s, 0)| ==> IsBlankSeparator(MatchedSeparators(s, 0)[k])
    ensures s == JoinWith(PiecesFrom(s, 0), MatchedSeparators(s, 0))
  {
    PiecesRejoin(s, 0);
    forall k | 0 <= k < |MatchedSeparators(s, 0)| ensures IsBlankSeparator(MatchedSeparators(s, 0)[k]) {
      MatchedSeparatorsBlank(s, 0, k);
    }
    assert s[0..] == s;
  }

  /** "a, b,c" splits to ["a", "b", "c"]: blanks next to a comma go. */
  lemma SplitExample()
    ensures SplitOnCommas("a, b,c") == ["a", "b", "c"]
  {
    var s := "a, b,c";
    CommaFromAt(s, 0, 1);
    BlankRunBeforeAt(s, 0, 1, 1);
    BlankRunAfterAt(s, 2, 3);
    CommaFromAt(s, 3, 4);
    BlankRunBeforeAt(s, 3, 4, 4);
    BlankRunAfterAt(s, 5, 5);
    CommaFromNone(s, 5);
    assert s[5..] == "c";
    assert PiecesFrom(s, 5) == ["c"];
    assert s[3..4] == "b" && s[0..1] == "a";
    assert PiecesFrom(s, 3) == ["b", "c"];
    assert PiecesFrom(s, 0) == ["a", "b", "c"];
  }

  /** Without any comma nothing matches: the empty string splits to one
      empty piece, not to none. */
  lemma SplitOfEmpty()
    ensures SplitOnCommas("") == [""]
  {
    CommaFromNone("", 0);
  }

  /** A lone comma splits to no piece at all: both pieces around it are
      empty and trailing empty pieces are dropped. */
  lemma SplitOfLoneComma()
    ensures SplitOnCommas(",") == []
  {
    CommaFromNone(",", 1);
    assert ","[1..] == "" && ","[0..0] == "";
    assert PiecesFrom(",", 1) == [""];
    CommaFromAt(",", 0, 0);
    BlankRunAfterAt(",", 1, 1);
    assert PiecesFrom(",", 0) == ["", ""];
  }

  /** An empty piece between two commas is kept. */
  lemma SplitKeepsInnerEmpty()
    ensures SplitOnCommas("a,,b") == ["a", "", "b"]
  {
    var s := "a,,b";
    CommaFromAt(s, 0, 1);
    BlankRunBeforeAt(s, 0, 1, 1);
    BlankRunAfterAt(s, 2, 2);
    CommaFromAt(s, 2, 2);
    BlankRunAfterAt(s, 3, 3);
    CommaFromNone(s, 3);
    assert s[3..] == "b" && s[0..1] == "a" && s[2..2] == "";
    assert PiecesFrom(s, 3) == ["b"];
    assert PiecesFrom(s, 2) == ["", "b"];
    assert PiecesFrom(s, 0) == ["a", "", "b"];
  }

  /** " a , b " splits to [" a", "b "]: only blanks next to the comma go. */
  lemma SplitKeepsOuterBlanks()
    ensures SplitOnCommas(" a , b ") == [" a", "b "]
  {
    var s := " a , b ";
    CommaFromAt(s, 0, 3);
    BlankRunBeforeAt(s, 0, 2, 3);
    BlankRunAfterAt(s, 4, 5);
    CommaFromNone(s, 5);
    assert s[5..] == "b " && s[0..2] == " a";
    assert PiecesFrom(s, 5) == ["b "];
    assert PiecesFrom(s, 0) == [" a", "b "];
  }
}
