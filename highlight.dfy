/** The editor's highlighting: whole-word, case-insensitive occurrences of
    every key of the keyword-colour map are collected key by key, sorted by
    start, thinned to a non-overlapping set (earliest first), and the text is
    cut into plain and keyword parts. Also the HTML escape applied to plain
    parts and the caret-restore search over the editor's text nodes. */
module Highlight {
  import opened Common
  import opened Text

  /** One regular-expression hit: the key, where it starts and ends, and the
      text it covered (which may differ from the key in letter case). */
  datatype Match = Match(keyword: string, start: nat, end: nat, original: string)

  datatype Part = TextPart(content: string) | KeywordPart(content: string, keyword: string, color: string)

  /** Equality under the `i` flag, for ASCII letters. */
  predicate SameIgnoringCase(a: string, b: string) {
    |a| == |b| && forall i :: 0 <= i < |a| ==> LowerChar(a[i]) == LowerChar(b[i])
  }

  predicate WordBefore(text: string, p: nat) {
    0 < p <= |text| && IsWordChar(text[p - 1])
  }

  predicate WordAfter(text: string, p: nat) {
    p < |text| && IsWordChar(text[p])
  }

  /** `\b` at position `p`: a word character on exactly one side. */
  predicate Boundary(text: string, p: nat) {
    WordBefore(text, p) != WordAfter(text, p)
  }

  /** The pattern `\b<key>\b` (key escaped, flag `i`) matches at `i`. */
  predicate MatchesAt(text: string, key: string, i: nat) {
    i + |key| <= |text| && Boundary(text, i) && SameIgnoringCase(text[i..i + |key|], key)
    && Boundary(text, i + |key|)
  }

  /** `regex.exec(text)` with `lastIndex == from`: the leftmost match at or
      after `from`. */
  function FindFrom(text: string, key: string, from: nat): (r: Option<nat>)
    decreases |text| - from
    ensures r.Some? ==> from <= r.value && r.value + |key| <= |text|
  {
    if |text| < from + |key| then None
    else if MatchesAt(text, key, from) then Some(from)
    else FindFrom(text, key, from + 1)
  }

  /** What `exec` finds is the leftmost match; when it finds nothing there is
      no match at all from `from` on. */
  lemma {:induction false} FindFromLeftmost(text: string, key: string, from: nat)
    ensures var r := FindFrom(text, key, from);
      r.Some? ==> MatchesAt(text, key, r.value) && forall j :: from <= j < r.value ==> !MatchesAt(text, key, j)
    ensures FindFrom(text, key, from).None? ==> forall j :: from <= j ==> !MatchesAt(text, key, j)
    decreases |text| - from
  {
    if from + |key| <= |text| && !MatchesAt(text, key, from) {
      FindFromLeftmost(text, key, from + 1);
    }
  }

  /** The hits the `exec` loop reports for one key, starting at `from`; the
      next search resumes at the end of the previous hit. */
  function KeyMatches(text: string, key: string, from: nat): seq<Match>
    requires |key| > 0
    decreases |text| - from
  {
    match FindFrom(text, key, from)
    case None => []
    case Some(i) => [Match(key, i, i + |key|, text[i..i + |key|])] + KeyMatches(text, key, i + |key|)
  }

  /** All hits, key after key in the given order (`Object.keys`). */
  function AllMatches(text: string, keys: seq<string>): seq<Match>
    requires forall k :: k in keys ==> |k| > 0
  {
    if keys == [] then []
    else AllMatches(text, keys[..|keys| - 1]) + KeyMatches(text, keys[|keys| - 1], 0)
  }

  /** A hit that really is a whole-word, case-insensitive occurrence. */
  predicate IsMatch(text: string, m: Match) {
    |m.keyword| > 0 && m.end == m.start + |m.keyword| && MatchesAt(text, m.keyword, m.start)
    && m.original == text[m.start..m.end]
  }

  /** The `exec` loop for one key; `exec` itself is the library call
      FindFrom. */
  method ExecAll(text: string, key: string) returns (matches: seq<Match>)
    requires |key| > 0
    ensures matches == KeyMatches(text, key, 0)
  {
    ghost var all := KeyMatches(text, key, 0);
    matches := [];
    var lastIndex := 0;
    var found := FindFrom(text, key, lastIndex);
    while found.Some?
      invariant found == FindFrom(text, key, lastIndex)
      invariant matches + KeyMatches(text, key, lastIndex) == all
      decreases |text| - lastIndex
    {
      var i := found.value;
      ExecStep(text, key, matches, lastIndex, i);
      matches := matches + [Match(key, i, i + |key|, text[i..i + |key|])];
      lastIndex := i + |key|;
      found := FindFrom(text, key, lastIndex);
    }
    ExecEnd(text, key, matches, lastIndex);
  }

  /** A round of the `exec` loop with a hit at `i`: the hit is reported and
      the search resumes after it, closer to the end of the text. */
  lemma ExecStep(text: string, key: string, matches: seq<Match>, from: nat, i: nat)
    requires |key| > 0 && FindFrom(text, key, from) == Some(i)
    requires matches + KeyMatches(text, key, from) == KeyMatches(text, key, 0)
    ensures from < i + |key| <= |text|
    ensures (matches + [Match(key, i, i + |key|, text[i..i + |key|])]) + KeyMatches(text, key, i + |key|)
      == KeyMatches(text, key, 0)
  {
    var m := Match(key, i, i + |key|, text[i..i + |key|]);
    var rest := KeyMatches(text, key, i + |key|);
    assert KeyMatches(text, key, from) == [m] + rest;
    ConcatAssoc(matches, [m], rest);
  }

  lemma ConcatAssoc<T>(a: seq<T>, b: seq<T>, c: seq<T>)
    ensures a + (b + c) == (a + b) + c
  {
  }

  /** No hit ends the loop with every hit reported. */
  lemma ExecEnd(text: string, key: string, matches: seq<Match>, from: nat)
    requires |key| > 0 && FindFrom(text, key, from).None?
    requires matches + KeyMatches(text, key, from) == KeyMatches(text, key, 0)
    ensures matches == KeyMatches(text, key, 0)
  {
    assert KeyMatches(text, key, from) == [];
    assert matches + [] == matches;
  }

  /** Collects the hits of every key, in key order. */
  method FindMatches(text: string, keys: seq<string>) returns (matches: seq<Match>)
    requires forall k :: k in keys ==> |k| > 0
    ensures matches == AllMatches(text, keys)
  {
    matches := [];
    for k := 0 to |keys|
      invariant matches == AllMatches(text, keys[..k])
    {
      var hits := ExecAll(text, keys[k]);
      assert keys[..k + 1][..k] == keys[..k];
      matches := matches + hits;
    }
    assert keys[..|keys|] == keys;
  }

  lemma {:induction false} KeyMatchesValid(text: string, key: string, from: nat, m: Match)
    requires |key| > 0 && m in KeyMatches(text, key, from)
    ensures IsMatch(text, m) && m.keyword == key
    decreases |text| - from
  {
    var i := FindFrom(text, key, from).value;
    var hit := Match(key, i, i + |key|, text[i..i + |key|]);
    var rest := KeyMatches(text, key, i + |key|);
    assert KeyMatches(text, key, from) == [hit] + rest;
    if m == hit {
      FindFromLeftmost(text, key, from);
    } else {
      assert m in rest;
      KeyMatchesValid(text, key, i + |key|, m);
    }
  }

  /** Every collected hit is a genuine occurrence of one of the keys. */
  lemma {:induction false} AllMatchesValid(text: string, keys: seq<string>, m: Match)
    requires forall k :: k in keys ==> |k| > 0
    requires m in AllMatches(text, keys)
    ensures IsMatch(text, m) && m.keyword in keys
  {
    var n := |keys| - 1;
    if m in AllMatches(text, keys[..n]) {
      AllMatchesValid(text, keys[..n], m);
    } else {
      KeyMatchesValid(text, keys[n], 0, m);
    }
  }

  function StartKey(m: Match): real {
    m.start as real
  }

  /** `match.start < m.end && match.end > m.start` */
  predicate Overlap(m: Match, k: Match) {
    m.start < k.end && m.end > k.start
  }

  predicate OverlapsAny(m: Match, kept: seq<Match>) {
    exists j :: 0 <= j < |kept| && Overlap(m, kept[j])
  }

  /** A hit is kept when it overlaps none of the hits kept before it. */
  function KeepFirst(ms: seq<Match>): seq<Match> {
    if ms == [] then []
    else
      var kept := KeepFirst(ms[..|ms| - 1]);
      if OverlapsAny(ms[|ms| - 1], kept) then kept else kept + [ms[|ms| - 1]]
  }

  /** The thinning loop over the sorted hits. */
  method RemoveOverlaps(ms: seq<Match>) returns (kept: seq<Match>)
    ensures kept == KeepFirst(ms)
  {
    kept := [];
    for i := 0 to |ms|
      invariant kept == KeepFirst(ms[..i])
    {
      assert ms[..i + 1][..i] == ms[..i];
      if !OverlapsAny(ms[i], kept) {
        kept := kept + [ms[i]];
      }
    }
    assert ms[..|ms|] == ms;
  }

  lemma {:induction false} KeepFirstFrom(ms: seq<Match>, m: Match)
    requires m in KeepFirst(ms)
    ensures m in ms
  {
    var n := |ms| - 1;
    if m != ms[n] {
      KeepFirstFrom(ms[..n], m);
    }
  }

  /** Kept hits follow one another: each ends no later than the next one
      starts. */
  predicate Chained(ms: seq<Match>) {
    forall i, j :: 0 <= i < j < |ms| ==> ms[i].end <= ms[j].start
  }

  /** On hits sorted by start, each non-empty, the kept hits are pairwise
      disjoint and strictly increasing in start. */
  lemma {:induction false} KeepFirstChained(ms: seq<Match>)
    requires SortedBy(ms, StartKey)
    requires forall i :: 0 <= i < |ms| ==> ms[i].start < ms[i].end
    ensures Chained(KeepFirst(ms))
  {
    if ms != [] {
      var n := |ms| - 1;
      var m := ms[n];
      var kept := KeepFirst(ms[..n]);
      KeepFirstChained(ms[..n]);
      if !OverlapsAny(m, kept) {
        forall j | 0 <= j < |kept|
          ensures kept[j].end <= m.start
        {
          KeepFirstFrom(ms[..n], kept[j]);
          var t :| 0 <= t < n && ms[t] == kept[j];
          assert StartKey(ms[t]) <= StartKey(ms[n]);
          assert !Overlap(m, kept[j]);
        }
      }
    }
  }

  lemma {:induction false} KeepFirstGrows(ms: seq<Match>, i: nat)
    requires i <= |ms|
    ensures |KeepFirst(ms[..i])| <= |KeepFirst(ms)|
    ensures KeepFirst(ms)[..|KeepFirst(ms[..i])|] == KeepFirst(ms[..i])
  {
    if i < |ms| {
      var n := |ms| - 1;
      assert ms[..n][..i] == ms[..i];
      KeepFirstGrows(ms[..n], i);
    } else {
      assert ms[..i] == ms;
    }
  }

  /** Every dropped hit overlaps a kept one: the first of a group of
      overlapping hits, after sorting, is the one kept. */
  lemma KeepFirstDropped(ms: seq<Match>, i: nat)
    requires i < |ms|
    ensures ms[i] in KeepFirst(ms) || OverlapsAny(ms[i], KeepFirst(ms))
  {
    var upTo := KeepFirst(ms[..i + 1]);
    assert ms[..i + 1][..i] == ms[..i];
    KeepFirstGrows(ms, i + 1);
    var all := KeepFirst(ms);
    if ms[i] in upTo {
      assert ms[i] in all[..|upTo|];
    } else {
      var j :| 0 <= j < |upTo| && Overlap(ms[i], upTo[j]);
      assert all[j] == upTo[j];
    }
  }

  /** The parts' contents, joined. */
  function Concat(parts: seq<Part>): string {
    if parts == [] then [] else Concat(parts[..|parts| - 1]) + parts[|parts| - 1].content
  }

  /** The keyword parts, in order. */
  function KeywordParts(parts: seq<Part>): seq<Part> {
    if parts == [] then []
    else KeywordParts(parts[..|parts| - 1]) + (if parts[|parts| - 1].KeywordPart? then [parts[|parts| - 1]] else [])
  }

  predicate NoEmptyText(parts: seq<Part>) {
    forall i :: 0 <= i < |parts| && parts[i].TextPart? ==> parts[i].content != []
  }

  /** The keyword part each kept hit becomes, coloured from the map. */
  function Highlights(kept: seq<Match>, colors: map<string, string>): seq<Part>
    requires forall i :: 0 <= i < |kept| ==> kept[i].keyword in colors
  {
    seq(|kept|, i requires 0 <= i < |kept| => KeywordPart(kept[i].original, kept[i].keyword, colors[kept[i].keyword]))
  }

  lemma PartsSnoc(parts: seq<Part>, p: Part)
    ensures Concat(parts + [p]) == Concat(parts) + p.content
    ensures KeywordParts(parts + [p]) == KeywordParts(parts) + (if p.KeywordPart? then [p] else [])
  {
    assert (parts + [p])[..|parts|] == parts;
  }

  /** Hits that cover text in order, each within the text. */
  predicate Covers(text: string, kept: seq<Match>) {
    Chained(kept)
    && forall i :: 0 <= i < |kept| ==>
         kept[i].start < kept[i].end <= |text| && kept[i].original == text[kept[i].start..kept[i].end]
  }

  lemma GapStep(text: string, parts: seq<Part>, from: nat, to: nat)
    requires from < to <= |text| && Concat(parts) == text[..from] && NoEmptyText(parts)
    ensures Concat(parts + [TextPart(text[from..to])]) == text[..to]
    ensures NoEmptyText(parts + [TextPart(text[from..to])])
    ensures KeywordParts(parts + [TextPart(text[from..to])]) == KeywordParts(parts)
  {
    PartsSnoc(parts, TextPart(text[from..to]));
    assert text[..from] + text[from..to] == text[..to];
  }

  lemma HitStep(text: string, parts: seq<Part>, m: Match, color: string)
    requires m.start < m.end <= |text| && m.original == text[m.start..m.end]
    requires Concat(parts) == text[..m.start] && NoEmptyText(parts)
    ensures Concat(parts + [KeywordPart(m.original, m.keyword, color)]) == text[..m.end]
    ensures NoEmptyText(parts + [KeywordPart(m.original, m.keyword, color)])
    ensures KeywordParts(parts + [KeywordPart(m.original, m.keyword, color)])
         == KeywordParts(parts) + [KeywordPart(m.original, m.keyword, color)]
  {
    PartsSnoc(parts, KeywordPart(m.original, m.keyword, color));
    assert text[..m.start] + text[m.start..m.end] == text[..m.end];
  }

  lemma PrefixSnoc<T>(s: seq<T>, i: nat)
    requires i < |s|
    ensures s[..i + 1] == s[..i] + [s[i]]
  {
  }

  /** The parts loop: a plain part for each non-empty gap before a hit, the
      hit as a keyword part, and a plain part for any remaining text. The
      parts join back to the text, no plain part is empty, and the keyword
      parts are exactly the kept hits in order. */
  method BuildParts(text: string, kept: seq<Match>, colors: map<string, string>) returns (parts: seq<Part>)
    requires Covers(text, kept)
    requires forall i :: 0 <= i < |kept| ==> kept[i].keyword in colors
    ensures Concat(parts) == text
    ensures NoEmptyText(parts)
    ensures KeywordParts(parts) == Highlights(kept, colors)
    ensures text != [] ==> parts != []
  {
    ghost var want := Highlights(kept, colors);
    parts := [];
    var lastIndex := 0;
    for i := 0 to |kept|
      invariant lastIndex <= |text|
      invariant lastIndex == if i == 0 then 0 else kept[i - 1].end
      invariant Concat(parts) == text[..lastIndex]
      invariant NoEmptyText(parts)
      invariant KeywordParts(parts) == want[..i]
    {
      var m := kept[i];
      assert m.start < m.end <= |text| && m.original == text[m.start..m.end];
      assert i > 0 ==> kept[i - 1].end <= m.start;
      if m.start > lastIndex {
        GapStep(text, parts, lastIndex, m.start);
        parts := parts + [TextPart(text[lastIndex..m.start])];
      }
      var part := KeywordPart(m.original, m.keyword, colors[m.keyword]);
      HitStep(text, parts, m, colors[m.keyword]);
      PrefixSnoc(want, i);
      parts := parts + [part];
      lastIndex := m.end;
    }
    assert want[..|kept|] == want;
    if lastIndex < |text| {
      GapStep(text, parts, lastIndex, |text|);
      assert text[lastIndex..|text|] == text[lastIndex..];
      parts := parts + [TextPart(text[lastIndex..])];
    }
    assert text[..|text|] == text;
  }

  /** The hits that end up highlighted. */
  function Kept(text: string, keys: seq<string>): seq<Match>
    requires forall k :: k in keys ==> |k| > 0
  {
    KeepFirst(Sort(AllMatches(text, keys), StartKey))
  }

  lemma SortedValid(text: string, keys: seq<string>, m: Match)
    requires forall k :: k in keys ==> |k| > 0
    requires m in Sort(AllMatches(text, keys), StartKey)
    ensures m in AllMatches(text, keys)
    ensures IsMatch(text, m) && m.keyword in keys
  {
    SortPermutes(AllMatches(text, keys), StartKey);
    assert m in multiset(Sort(AllMatches(text, keys), StartKey));
    AllMatchesValid(text, keys, m);
  }

  /** Each highlighted hit is a whole-word, case-insensitive occurrence of
      one of the keys. */
  lemma KeptValid(text: string, keys: seq<string>, m: Match)
    requires forall k :: k in keys ==> |k| > 0
    requires m in Kept(text, keys)
    ensures IsMatch(text, m) && m.keyword in keys
  {
    KeepFirstFrom(Sort(AllMatches(text, keys), StartKey), m);
    SortedValid(text, keys, m);
  }

  /** The highlighted hits follow one another without overlap, inside the
      text. */
  lemma KeptCovers(text: string, keys: seq<string>)
    requires forall k :: k in keys ==> |k| > 0
    ensures Covers(text, Kept(text, keys))
  {
    var sorted := Sort(AllMatches(text, keys), StartKey);
    SortSorted(AllMatches(text, keys), StartKey);
    forall i | 0 <= i < |sorted|
      ensures sorted[i].start < sorted[i].end
    {
      SortedValid(text, keys, sorted[i]);
    }
    KeepFirstChained(sorted);
    var kept := Kept(text, keys);
    forall i | 0 <= i < |kept|
      ensures kept[i].start < kept[i].end <= |text| && kept[i].original == text[kept[i].start..kept[i].end]
    {
      KeptValid(text, keys, kept[i]);
    }
  }

  /** Every candidate hit that is not highlighted overlaps one that is. */
  lemma KeptDropped(text: string, keys: seq<string>, m: Match)
    requires forall k :: k in keys ==> |k| > 0
    requires m in AllMatches(text, keys)
    ensures m in Kept(text, keys) || OverlapsAny(m, Kept(text, keys))
  {
    var sorted := Sort(AllMatches(text, keys), StartKey);
    SortPermutes(AllMatches(text, keys), StartKey);
    assert m in multiset(sorted);
    var i :| 0 <= i < |sorted| && sorted[i] == m;
    KeepFirstDropped(sorted, i);
  }

  lemma {:induction false} EmptyTextNoMatches(keys: seq<string>)
    requires forall k :: k in keys ==> |k| > 0
    ensures AllMatches("", keys) == [] && Kept("", keys) == []
  {
    if keys != [] {
      EmptyTextNoMatches(keys[..|keys| - 1]);
    }
  }

  /** `renderHighlightedText`: nothing for an empty value; otherwise parts
      that join back to the value, with no empty plain part, whose keyword
      parts are the highlighted hits coloured from the map. The fallback of
      a single plain part is never needed, since a non-empty value always
      yields at least one part. */
  method RenderHighlightedText(value: string, keys: seq<string>, keywordsMap: map<string, string>)
    returns (parts: seq<Part>)
    requires forall k :: k in keys <==> k in keywordsMap
    requires "" !in keywordsMap
    ensures value == [] ==> parts == []
    ensures Concat(parts) == value
    ensures NoEmptyText(parts)
    ensures value != [] ==> parts != []
    ensures forall m :: m in Kept(value, keys) ==> m.keyword in keywordsMap
    ensures KeywordParts(parts) == Highlights(Kept(value, keys), keywordsMap)
  {
    KeptCovers(value, keys);
    forall m | m in Kept(value, keys)
      ensures m.keyword in keywordsMap
    {
      KeptValid(value, keys, m);
    }
    if value == [] {
      EmptyTextNoMatches(keys);
      return [];
    }
    var matches := FindMatches(value, keys);
    var sorted := Sort(matches, StartKey);
    var kept := RemoveOverlaps(sorted);
    parts := BuildParts(value, kept, keywordsMap);
  }

  /** `s.replace(/c/g, rep)` for a one-character pattern. */
  function ReplaceAll(s: string, c: char, rep: string): (r: string)
    ensures c !in rep ==> c !in r
    ensures forall d :: d !in s && d !in rep ==> d !in r
  {
    if s == [] then []
    else (if s[0] == c then rep else [s[0]]) + ReplaceAll(s[1..], c, rep)
  }

  /** The escape applied to plain parts: `&` first, then `<`, then `>`. */
  function EscapeHtml(s: string): (r: string)
    ensures '<' !in r && '>' !in r
  {
    ReplaceAll(ReplaceAll(ReplaceAll(s, '&', "&amp;"), '<', "&lt;"), '>', "&gt;")
  }

  /** The intended per-character escape. */
  function EscapeChar(c: char): string {
    if c == '&' then "&amp;" else if c == '<' then "&lt;" else if c == '>' then "&gt;" else [c]
  }

  function EscapeEach(s: string): string {
    if s == [] then [] else EscapeChar(s[0]) + EscapeEach(s[1..])
  }

  /** The inverse: the three entities back to their characters. */
  function Unescape(s: string): string {
    if s == [] then []
    else if |s| >= 5 && s[..5] == "&amp;" then "&" + Unescape(s[5..])
    else if |s| >= 4 && s[..4] == "&lt;" then "<" + Unescape(s[4..])
    else if |s| >= 4 && s[..4] == "&gt;" then ">" + Unescape(s[4..])
    else [s[0]] + Unescape(s[1..])
  }

  lemma {:induction false} ReplaceAllAppend(a: string, b: string, c: char, rep: string)
    ensures ReplaceAll(a + b, c, rep) == ReplaceAll(a, c, rep) + ReplaceAll(b, c, rep)
  {
    if a == [] {
      assert a + b == b;
    } else {
      assert (a + b)[1..] == a[1..] + b;
      ReplaceAllAppend(a[1..], b, c, rep);
    }
  }

  lemma {:induction false} ReplaceAllAbsent(s: string, c: char, rep: string)
    requires c !in s
    ensures ReplaceAll(s, c, rep) == s
  {
    if s != [] {
      ReplaceAllAbsent(s[1..], c, rep);
    }
  }

  lemma ReplaceAllOne(x: char, c: char, rep: string)
    ensures ReplaceAll([x], c, rep) == if x == c then rep else [x]
  {
    assert [x][1..] == [];
  }

  lemma EscapeOne(x: char)
    ensures EscapeHtml([x]) == EscapeChar(x)
  {
    ReplaceAllOne(x, '&', "&amp;");
    var r1 := ReplaceAll([x], '&', "&amp;");
    var r2 := ReplaceAll(r1, '<', "&lt;");
    if x == '&' {
      ReplaceAllAbsent(r1, '<', "&lt;");
      ReplaceAllAbsent(r2, '>', "&gt;");
    } else {
      ReplaceAllOne(x, '<', "&lt;");
      if x == '<' {
        ReplaceAllAbsent(r2, '>', "&gt;");
      } else {
        ReplaceAllOne(x, '>', "&gt;");
      }
    }
  }

  /** Replacing `&` before the other two means no entity is escaped twice:
      the chain escapes each character on its own. */
  lemma {:induction false} EscapeChainPerChar(s: string)
    ensures EscapeHtml(s) == EscapeEach(s)
  {
    if s != [] {
      var x, t := s[0], s[1..];
      assert s == [x] + t;
      EscapeChainPerChar(t);
      EscapeOne(x);
      var r1 := ReplaceAll([x], '&', "&amp;");
      ReplaceAllAppend([x], t, '&', "&amp;");
      var r2 := ReplaceAll(r1, '<', "&lt;");
      ReplaceAllAppend(r1, ReplaceAll(t, '&', "&amp;"), '<', "&lt;");
      ReplaceAllAppend(r2, ReplaceAll(ReplaceAll(t, '&', "&amp;"), '<', "&lt;"), '>', "&gt;");
    }
  }

  lemma UnescapeAmp(rest: string)
    ensures Unescape("&amp;" + rest) == "&" + Unescape(rest)
  {
    var e := "&amp;" + rest;
    assert e[..5] == "&amp;" && e[5..] == rest;
  }

  lemma UnescapeLt(rest: string)
    ensures Unescape("&lt;" + rest) == "<" + Unescape(rest)
  {
    var e := "&lt;" + rest;
    assert |e| >= 5 ==> e[..5][1] == 'l';
    assert e[..4] == "&lt;" && e[4..] == rest;
  }

  lemma UnescapeGt(rest: string)
    ensures Unescape("&gt;" + rest) == ">" + Unescape(rest)
  {
    var e := "&gt;" + rest;
    assert |e| >= 5 ==> e[..5][1] == 'g';
    assert e[..4][1] == 'g';
    assert e[..4] == "&gt;" && e[4..] == rest;
  }

  lemma UnescapePlain(x: char, rest: string)
    requires x != '&'
    ensures Unescape([x] + rest) == [x] + Unescape(rest)
  {
    var e := [x] + rest;
    assert |e| >= 5 ==> e[..5][0] == x;
    assert |e| >= 4 ==> e[..4][0] == x;
    assert e[1..] == rest;
  }

  lemma UnescapeOne(x: char, rest: string)
    ensures Unescape(EscapeChar(x) + rest) == [x] + Unescape(rest)
  {
    if x == '&' {
      UnescapeAmp(rest);
    } else if x == '<' {
      UnescapeLt(rest);
    } else if x == '>' {
      UnescapeGt(rest);
    } else {
      UnescapePlain(x, rest);
    }
  }

  lemma {:induction false} UnescapeEach(s: string)
    ensures Unescape(EscapeEach(s)) == s
  {
    if s != [] {
      UnescapeEach(s[1..]);
      UnescapeOne(s[0], EscapeEach(s[1..]));
      assert s == [s[0]] + s[1..];
    }
  }

  /** Unescaping an escaped plain part gives the part back: the escape
      loses nothing. */
  lemma EscapeRoundTrip(s: string)
    ensures Unescape(EscapeHtml(s)) == s
  {
    EscapeChainPerChar(s);
    UnescapeEach(s);
  }

  /** Characters in the text nodes before the caret. */
  function Sum(lengths: seq<nat>): nat {
    if lengths == [] then 0 else Sum(lengths[..|lengths| - 1]) + lengths[|lengths| - 1]
  }

  lemma {:induction false} SumMonotone(lengths: seq<nat>, i: nat, j: nat)
    requires i <= j <= |lengths|
    ensures Sum(lengths[..i]) <= Sum(lengths[..j])
    decreases j
  {
    if i < j {
      assert lengths[..j][..j - 1] == lengths[..j - 1];
      SumMonotone(lengths, i, j - 1);
    }
  }

  function PrefixSum(lengths: seq<nat>, k: nat): nat
    requires k <= |lengths|
  {
    Sum(lengths[..k])
  }

  /** The tree-walker loop: the first text node on whose end or before it
      the saved offset falls, and the offset inside that node. */
  method FindCaretTarget(lengths: seq<nat>, saved: nat) returns (found: bool, node: nat, offset: nat)
    ensures found <==> lengths != [] && saved <= Sum(lengths)
    ensures found ==> node < |lengths| && saved <= Sum(lengths[..node + 1])
    ensures found ==> forall k :: 0 < k <= node ==> PrefixSum(lengths, k) < saved
    ensures found ==> offset <= lengths[node] && Sum(lengths[..node]) + offset == saved
  {
    found, node, offset := false, 0, 0;
    var total := 0;
    var i := 0;
    while i < |lengths|
      invariant i <= |lengths| && !found
      invariant total == Sum(lengths[..i])
      invariant forall k :: 0 < k <= i ==> PrefixSum(lengths, k) < saved
      invariant i > 0 ==> total < saved
    {
      assert lengths[..i + 1][..i] == lengths[..i];
      if total + lengths[i] >= saved {
        found, node, offset := true, i, saved - total;
        SumMonotone(lengths, i + 1, |lengths|);
        assert lengths[..|lengths|] == lengths;
        break;
      }
      total := total + lengths[i];
      i := i + 1;
    }
    if !found {
      assert lengths[..|lengths|] == lengths;
    }
  }

  datatype Caret = Unchanged | At(node: nat, position: nat)

  function Min(a: nat, b: nat): nat {
    if a <= b then a else b
  }

  /** Placing the caret after the HTML was replaced: inside the target node
      (the `Math.min` never clips), else at the end of the last text node,
      else nowhere. Either way it lands at the saved offset, or at the end
      when the saved offset is past the text. */
  method RestoreCaret(lengths: seq<nat>, saved: nat) returns (caret: Caret)
    ensures caret.At? <==> lengths != []
    ensures caret.At? ==> caret.node < |lengths| && caret.position <= lengths[caret.node]
    ensures caret.At? ==> Sum(lengths[..caret.node]) + caret.position == Min(saved, Sum(lengths))
  {
    var found, node, offset := FindCaretTarget(lengths, saved);
    if found {
      caret := At(node, Min(offset, lengths[node]));
    } else if lengths != [] {
      var last := |lengths| - 1;
      assert lengths[..last + 1] == lengths;
      caret := At(last, lengths[last]);
    } else {
      caret := Unchanged;
    }
  }

  /** One text node per part, as long as the part's content. */
  function NodeLengths(parts: seq<Part>): seq<nat> {
    seq(|parts|, i requires 0 <= i < |parts| => |parts[i].content|)
  }

  /** The text nodes hold exactly the characters of the joined parts, so the
      restored caret of a rendered value is at most its length. */
  lemma {:induction false} NodeLengthsSum(parts: seq<Part>)
    ensures Sum(NodeLengths(parts)) == |Concat(parts)|
  {
    if parts != [] {
      var n := |parts| - 1;
      assert NodeLengths(parts)[..n] == NodeLengths(parts[..n]);
      NodeLengthsSum(parts[..n]);
    }
  }
}

