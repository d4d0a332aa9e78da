/** Keyword extraction and keyword colours (frontend/src/utils/keywords.js).
    Candidate keywords are the whitespace-delimited words of the text with
    every non-`\w` character removed, kept when the cleaned word is longer
    than three characters, lower-cased and de-duplicated in order of first
    appearance. */
module Keywords {
  import opened Text
  import opened Common

  const DefaultColor: string := "#CEE8D7"
  const AltColor: string := "#CAE2FF"

  /** Length of the leading run of non-white-space characters. */
  function WordLength(s: string): (n: nat)
    ensures n <= |s|
    ensures forall i :: 0 <= i < n ==> !IsWhitespace(s[i])
    ensures n < |s| ==> IsWhitespace(s[n])
  {
    if s == [] || IsWhitespace(s[0]) then 0 else 1 + WordLength(s[1..])
  }

  /** The maximal runs of non-white-space characters of `s`, in order: what
      `s.trim().split(/\s+/)` gives for a text that is not blank. */
  function Words(s: string): (ws: seq<string>)
    ensures forall i :: 0 <= i < |ws| ==> ws[i] != []
    ensures forall i, j :: 0 <= i < |ws| && 0 <= j < |ws[i]| ==> !IsWhitespace(ws[i][j])
    decreases |s|
  {
    if s == [] then []
    else if IsWhitespace(s[0]) then Words(s[1..])
    else
      var n := WordLength(s);
      [s[..n]] + Words(s[n..])
  }

  /** Every word of the text occurs in the text. */
  lemma {:induction false} WordsOccurInText(s: string, i: nat)
    requires i < |Words(s)|
    ensures Contains(s, Words(s)[i])
    decreases |s|
  {
    if IsWhitespace(s[0]) {
      WordsOccurInText(s[1..], i);
      ContainsPrepend(s[..1], s[1..], Words(s)[i]);
      assert s[..1] + s[1..] == s;
    } else {
      var n := WordLength(s);
      if i == 0 {
        assert s[0..n] == Words(s)[0];
        assert OccursAt(s, Words(s)[0], 0);
      } else {
        assert Words(s)[i] == Words(s[n..])[i - 1];
        WordsOccurInText(s[n..], i - 1);
        ContainsPrepend(s[..n], s[n..], Words(s)[i]);
        assert s[..n] + s[n..] == s;
      }
    }
  }

  lemma ContainsPrepend(a: string, b: string, pat: string)
    requires Contains(b, pat)
    ensures Contains(a + b, pat)
  {
    var i: nat :| i <= |b| && OccursAt(b, pat, i);
    assert (a + b)[|a| + i..|a| + i + |pat|] == b[i..i + |pat|];
    assert |a| + i <= |a + b| && OccursAt(a + b, pat, |a| + i);
  }

  /** The words, written one after the other. */
  function Join(ws: seq<string>): string {
    if ws == [] then [] else ws[0] + Join(ws[1..])
  }

  /** The characters of `s` that are not white space, in order. */
  function NonWhite(s: string): string {
    if s == [] then [] else (if IsWhitespace(s[0]) then [] else [s[0]]) + NonWhite(s[1..])
  }

  lemma {:induction false} NonWhiteAppend(a: string, b: string)
    ensures NonWhite(a + b) == NonWhite(a) + NonWhite(b)
  {
    if a == [] {
      assert a + b == b;
    } else {
      assert (a + b)[1..] == a[1..] + b;
      NonWhiteAppend(a[1..], b);
    }
  }

  lemma {:induction false} NonWhiteOfWord(w: string)
    requires forall i :: 0 <= i < |w| ==> !IsWhitespace(w[i])
    ensures NonWhite(w) == w
  {
    if w != [] {
      NonWhiteOfWord(w[1..]);
      assert w == [w[0]] + w[1..];
    }
  }

  /** Nothing but white space is dropped: the words, joined, are the text's
      non-white-space characters in order. */
  lemma {:induction false} WordsJoin(s: string)
    ensures Join(Words(s)) == NonWhite(s)
    decreases |s|
  {
    if s != [] {
      if IsWhitespace(s[0]) {
        WordsJoin(s[1..]);
      } else {
        var n := WordLength(s);
        var ws := Words(s);
        assert ws == [s[..n]] + Words(s[n..]);
        assert ws[1..] == Words(s[n..]);
        WordsJoin(s[n..]);
        NonWhiteOfWord(s[..n]);
        NonWhiteAppend(s[..n], s[n..]);
        assert s[..n] + s[n..] == s;
      }
    }
  }

  /** A word's run stops at the first white space. */
  lemma {:induction false} WordLengthStops(a: string, c: char, b: string)
    requires IsWhitespace(c)
    ensures WordLength(a + [c] + b) == WordLength(a)
  {
    var s := a + [c] + b;
    if a != [] && !IsWhitespace(a[0]) {
      assert s[1..] == a[1..] + [c] + b;
      WordLengthStops(a[1..], c, b);
    }
  }

  /** White space separates words: splitting the text at a white-space
      character splits its words in two. */
  lemma {:induction false} WordsSplit(a: string, c: char, b: string)
    requires IsWhitespace(c)
    ensures Words(a + [c] + b) == Words(a) + Words(b)
    decreases |a|
  {
    var s := a + [c] + b;
    if a == [] {
      assert s[1..] == b;
    } else if IsWhitespace(a[0]) {
      assert s[1..] == a[1..] + [c] + b;
      WordsSplit(a[1..], c, b);
    } else {
      WordLengthStops(a, c, b);
      var n := WordLength(a);
      assert s[..n] == a[..n];
      assert s[n..] == a[n..] + [c] + b;
      WordsSplit(a[n..], c, b);
    }
  }

  /** A run without white space is one word. */
  lemma {:induction false} WordsOfWord(w: string)
    requires w != [] && forall i :: 0 <= i < |w| ==> !IsWhitespace(w[i])
    ensures Words(w) == [w]
  {
    var n := WordLength(w);
    assert n == |w|;
    assert w[..n] == w && w[n..] == [];
    assert Words(w[n..]) == [];
  }

  /** `word.replace(/[^\w]/g, "")` */
  function Clean(w: string): (r: string)
    ensures |r| <= |w|
    ensures forall i :: 0 <= i < |r| ==> IsWordChar(r[i])
    ensures forall c :: c in w && IsWordChar(c) ==> c in r
  {
    if w == [] then []
    else if IsWordChar(w[0]) then [w[0]] + Clean(w[1..])
    else Clean(w[1..])
  }

  /** Cleaning works character by character: a `\w` character is kept and
      any other is dropped, in place. */
  lemma CleanChar(c: char)
    ensures Clean([c]) == if IsWordChar(c) then [c] else []
  {
    assert [c][1..] == [];
  }

  lemma {:induction false} CleanAppend(a: string, b: string)
    ensures Clean(a + b) == Clean(a) + Clean(b)
  {
    if a == [] {
      assert a + b == b;
    } else {
      assert (a + b)[1..] == a[1..] + b;
      CleanAppend(a[1..], b);
    }
  }

  /** The keyword a word stands for: cleaned, then lower-cased. */
  function Normalize(w: string): string {
    Lower(Clean(w))
  }

  /** A lower-case keyword character: `\w` without the upper-case letters. */
  predicate IsKeywordChar(c: char) {
    IsWordChar(c) && !('A' <= c <= 'Z')
  }

  /** The keyword of every word whose cleaned form is longer than three, in
      word order, duplicates included. */
  function Candidates(words: seq<string>): seq<string> {
    if words == [] then []
    else
      var w := words[|words| - 1];
      var front := Candidates(words[..|words| - 1]);
      if |Clean(w)| > 3 then front + [Normalize(w)] else front
  }

  lemma NormalizeChars(w: string)
    ensures forall j :: 0 <= j < |Normalize(w)| ==> IsKeywordChar(Normalize(w)[j])
    ensures |Normalize(w)| == |Clean(w)|
  {
  }

  lemma {:induction false} CandidatesProps(words: seq<string>)
    ensures forall i :: 0 <= i < |Candidates(words)| ==> |Candidates(words)[i]| > 3
    ensures forall i, j :: 0 <= i < |Candidates(words)| && 0 <= j < |Candidates(words)[i]| ==>
      IsKeywordChar(Candidates(words)[i][j])
    ensures forall k :: k in Candidates(words) <==>
      exists w :: w in words && |Clean(w)| > 3 && k == Normalize(w)
  {
    if words != [] {
      var p := words[..|words| - 1];
      var w := words[|words| - 1];
      assert words == p + [w];
      CandidatesProps(p);
      NormalizeChars(w);
      var front := Candidates(p);
      assert forall i :: 0 <= i < |front| ==> |front[i]| > 3;
      var ks := Candidates(words);
      assert ks == if |Clean(w)| > 3 then front + [Normalize(w)] else front;
      forall i | 0 <= i < |ks|
        ensures |ks[i]| > 3
        ensures forall j :: 0 <= j < |ks[i]| ==> IsKeywordChar(ks[i][j])
      {
        if i < |front| { assert ks[i] == front[i]; } else { assert ks[i] == Normalize(w); }
      }
      forall k ensures k in ks <==> exists v :: v in words && |Clean(v)| > 3 && k == Normalize(v) {
        if k in ks && k !in front {
          assert k == Normalize(w) && |Clean(w)| > 3;
          assert w in words;
        }
        if exists v :: v in words && |Clean(v)| > 3 && k == Normalize(v) {
          var v :| v in words && |Clean(v)| > 3 && k == Normalize(v);
          if v in p {
            assert exists u :: u in p && |Clean(u)| > 3 && k == Normalize(u);
            assert k in front;
            assert k in ks;
          } else {
            assert v == w;
          }
        }
      }
    }
  }

  lemma CandidatesPrefix(words: seq<string>, i: nat)
    requires i < |words|
    ensures Candidates(words[..i + 1]) ==
      Candidates(words[..i]) + (if |Clean(words[i])| > 3 then [Normalize(words[i])] else [])
  {
    assert words[..i + 1][..i] == words[..i];
  }

  /** The elements of `s` in order of first appearance, each once; what
      filling a JavaScript `Set` and reading it back gives. */
  function Dedup<T(==)>(s: seq<T>): seq<T> {
    if s == [] then []
    else
      var x := s[|s| - 1];
      var front := Dedup(s[..|s| - 1]);
      if x in front then front else front + [x]
  }

  /** De-duplication keeps exactly the elements of its input. */
  lemma {:induction false} DedupMembers<T>(s: seq<T>)
    ensures forall x :: x in Dedup(s) <==> x in s
  {
    if s != [] {
      DedupMembers(s[..|s| - 1]);
      assert forall y :: y in s <==> y in s[..|s| - 1] || y == s[|s| - 1];
    }
  }

  lemma DedupHas<T>(s: seq<T>, y: T)
    requires y in Dedup(s)
    ensures y in s
  {
    DedupMembers(s);
  }

  lemma DedupSnoc<T>(s: seq<T>, x: T)
    ensures Dedup(s + [x]) == if x in Dedup(s) then Dedup(s) else Dedup(s) + [x]
  {
    assert (s + [x])[..|s|] == s;
  }

  lemma {:induction false} DedupDistinct<T>(s: seq<T>)
    ensures Distinct(Dedup(s))
  {
    if s != [] {
      DedupDistinct(s[..|s| - 1]);
    }
  }

  /** De-duplication keeps the order of first appearance. */
  lemma {:induction false} DedupOrder<T>(s: seq<T>, i: nat, j: nat)
    requires i < j < |Dedup(s)|
    ensures Dedup(s)[i] in s && Dedup(s)[j] in s
    ensures FirstIndex(s, Dedup(s)[i]) < FirstIndex(s, Dedup(s)[j])
  {
    var p := s[..|s| - 1];
    var x := s[|s| - 1];
    assert s == p + [x];
    var d := Dedup(s);
    DedupMembers(p);
    DedupMembers(s);
    assert d[i] in d && d[j] in d;
    if x in Dedup(p) || j < |Dedup(p)| {
      assert d[i] == Dedup(p)[i] && d[j] == Dedup(p)[j];
      DedupOrder(p, i, j);
      FirstIndexExtend(p, x, d[i]);
      FirstIndexExtend(p, x, d[j]);
    } else {
      assert d == Dedup(p) + [x];
      assert d[i] == Dedup(p)[i];
      var y := d[i];
      assert y in Dedup(p);
      DedupHas(p, y);
      FirstIndexExtend(p, x, d[i]);
      assert d[j] == x && x !in p;
      assert FirstIndex(s, x) == |p|;
    }
  }

  /** What every de-duplicated candidate list satisfies. */
  lemma KeywordListProps(words: seq<string>)
    ensures forall i :: 0 <= i < |Dedup(Candidates(words))| ==> |Dedup(Candidates(words))[i]| > 3
    ensures forall i, j :: 0 <= i < |Dedup(Candidates(words))| && 0 <= j < |Dedup(Candidates(words))[i]| ==>
      IsKeywordChar(Dedup(Candidates(words))[i][j])
    ensures Distinct(Dedup(Candidates(words)))
    ensures forall k :: k in Dedup(Candidates(words)) <==>
      exists w :: w in words && |Clean(w)| > 3 && k == Normalize(w)
  {
    CandidatesProps(words);
    DedupDistinct(Candidates(words));
    DedupMembers(Candidates(words));
    var ks := Dedup(Candidates(words));
    forall i | 0 <= i < |ks| ensures ks[i] in Candidates(words) { assert ks[i] in ks; }
  }

  /** `extractKeywords(text)`: the Set of keywords is filled word by word. */
  method ExtractKeywords(text: string) returns (keywords: seq<string>)
    ensures keywords == Dedup(Candidates(Words(text)))
    ensures IsAllWhitespace(text) ==> keywords == []
    ensures forall i :: 0 <= i < |keywords| ==> |keywords[i]| > 3
    ensures forall i, j :: 0 <= i < |keywords| && 0 <= j < |keywords[i]| ==> IsKeywordChar(keywords[i][j])
    ensures Distinct(keywords)
    ensures forall k :: k in keywords <==>
      exists w :: w in Words(text) && |Clean(w)| > 3 && k == Normalize(w)
  {
    var words := Words(text);
    KeywordListProps(words);
    if IsAllWhitespace(text) {
      BlankHasNoWords(text);
      return [];
    }
    keywords := CollectKeywords(words);
  }

  /** The `forEach` over the words, adding each long enough keyword to the Set. */
  method CollectKeywords(words: seq<string>) returns (keywords: seq<string>)
    ensures keywords == Dedup(Candidates(words))
  {
    keywords := [];
    var i := 0;
    while i < |words|
      invariant 0 <= i <= |words|
      invariant keywords == Dedup(Candidates(words[..i]))
    {
      var clean := Clean(words[i]);
      CandidatesPrefix(words, i);
      if |clean| > 3 {
        var k := Lower(clean);
        assert k == Normalize(words[i]);
        DedupSnoc(Candidates(words[..i]), k);
        assert Candidates(words[..i + 1]) == Candidates(words[..i]) + [k];
        if k !in keywords {
          keywords := keywords + [k];
        }
        assert keywords == Dedup(Candidates(words[..i + 1]));
      } else {
        assert Candidates(words[..i + 1]) == Candidates(words[..i]);
      }
      i := i + 1;
    }
    assert words[..i] == words;
  }

  lemma {:induction false} BlankHasNoWords(s: string)
    requires IsAllWhitespace(s)
    ensures Words(s) == []
    decreases |s|
  {
    if s != [] {
      BlankHasNoWords(s[1..]);
    }
  }

  /** Sum of the character codes, added left to right as `reduce` does. */
  function CodeSum(s: string): int {
    if s == [] then 0 else CodeSum(s[..|s| - 1]) + s[|s| - 1] as int
  }

  /** `getKeywordColor(keyword)`: one of two colours, the first for the empty
      keyword and for an even (code sum + length). */
  function KeywordColor(keyword: string): (color: string)
    ensures color == DefaultColor || color == AltColor
    ensures keyword == [] ==> color == DefaultColor
  {
    if keyword == [] then DefaultColor
    else if (CodeSum(keyword) + |keyword|) % 2 == 0 then DefaultColor
    else AltColor
  }

  /** Number of characters whose code is even. */
  function EvenCodeCount(s: string): nat {
    if s == [] then 0
    else EvenCodeCount(s[..|s| - 1]) + (if (s[|s| - 1] as int) % 2 == 0 then 1 else 0)
  }

  lemma {:induction false} CodeSumParity(s: string)
    ensures (CodeSum(s) + |s|) % 2 == EvenCodeCount(s) % 2
  {
    if s != [] {
      CodeSumParity(s[..|s| - 1]);
    }
  }

  /** An independent description of the colour: a non-empty keyword gets the
      default colour exactly when it has an even number of characters with an
      even code. */
  lemma ColorByEvenCodes(keyword: string)
    requires keyword != []
    ensures KeywordColor(keyword) == DefaultColor <==> EvenCodeCount(keyword) % 2 == 0
    ensures KeywordColor(keyword) == AltColor <==> EvenCodeCount(keyword) % 2 == 1
  {
    CodeSumParity(keyword);
  }
}
