/** The sketch pad: its undo/redo history of canvas snapshots, the scan that
    decides whether anything has been drawn, and the keyword taken from the
    classifier's best label. */
module Drawing {
  import opened Common
  import opened Text

  /** `Array.prototype.slice(0, end)`: the length of the kept prefix. A
      negative end counts from the back. */
  function SliceEnd(length: nat, end: int): (k: nat)
    ensures k <= length
    ensures 0 <= end <= length ==> k == end
    ensures end > length ==> k == length
  {
    if end < 0 then (if length + end < 0 then 0 else length + end)
    else if end > length then length
    else end
  }

  /** The snapshots (data URLs) and the index of the one on the canvas. */
  class DrawingHistory {
    var history: seq<string>
    var index: int

    /** Either nothing is recorded yet, or the index points at a
        snapshot. */
    predicate Valid()
      reads this
    {
      -1 <= index < |history| && (|history| > 0 ==> 0 <= index)
    }

    predicate CanUndo()
      reads this
    {
      index > 0
    }

    predicate CanRedo()
      reads this
    {
      index < |history| - 1
    }

    /** The initial state, also restored on mount. */
    constructor ()
      ensures history == [] && index == -1
      ensures Valid()
    {
      history := [];
      index := -1;
    }

    method Reset()
      modifies this
      ensures history == [] && index == -1
      ensures Valid()
    {
      history := [];
      index := -1;
    }

    /** The first snapshot once the canvas exists, unless one is already
        recorded. */
    method Initialize(snapshot: Option<string>)
      modifies this
      requires Valid()
      ensures Valid()
      ensures snapshot.Some? && old(history) == [] ==> history == [snapshot.value] && index == 0
      ensures snapshot.None? || old(history) != [] ==> history == old(history) && index == old(index)
    {
      if snapshot.None? || |history| > 0 {
        return;
      }
      history := [snapshot.value];
      index := 0;
    }

    /** `saveToHistory`: the entries after the current one are dropped and
        the new snapshot becomes current, so there is nothing left to
        redo. */
    method Save(snapshot: Option<string>)
      modifies this
      requires Valid()
      ensures Valid()
      ensures snapshot.None? ==> history == old(history) && index == old(index)
      ensures snapshot.Some? ==> history == old(history)[..SliceEnd(|old(history)|, old(index) + 1)] + [snapshot.value]
      ensures snapshot.Some? ==> index == old(index) + 1
      ensures snapshot.Some? ==> history[index] == snapshot.value && !CanRedo()
      ensures snapshot.Some? ==> history[..index] == old(history)[..index]
    {
      if snapshot.None? {
        return;
      }
      history := history[..SliceEnd(|history|, index + 1)] + [snapshot.value];
      index := index + 1;
    }

    /** `undo`: one step back, returning the snapshot to redraw. */
    method Undo(hasCanvas: bool) returns (redraw: Option<string>)
      modifies this`index
      requires Valid()
      ensures Valid()
      ensures redraw.Some? <==> old(CanUndo()) && hasCanvas
      ensures redraw.Some? ==> index == old(index) - 1 && redraw.value == history[index]
      ensures redraw.None? ==> index == old(index)
    {
      redraw := None;
      if index > 0 && hasCanvas {
        index := index - 1;
        redraw := Some(history[index]);
      }
    }

    /** `redo`: one step forward, returning the snapshot to redraw. */
    method Redo(hasCanvas: bool) returns (redraw: Option<string>)
      modifies this`index
      requires Valid()
      ensures Valid()
      ensures redraw.Some? <==> old(CanRedo()) && hasCanvas
      ensures redraw.Some? ==> index == old(index) + 1 && redraw.value == history[index]
      ensures redraw.None? ==> index == old(index)
    {
      redraw := None;
      if index < |history| - 1 && hasCanvas {
        index := index + 1;
        redraw := Some(history[index]);
      }
    }
  }

  /** An undo followed by a redo returns to the same snapshot and leaves the
      history alone. */
  method UndoThenRedo(h: DrawingHistory)
    modifies h`index
    requires h.Valid() && h.CanUndo()
    ensures h.Valid() && h.index == old(h.index) && h.history == old(h.history)
  {
    var back := h.Undo(true);
    var forth := h.Redo(true);
  }

  /** The pixel starting at byte `i` (red, green, blue, alpha) is drawn:
      visible and not pure white. A pixel cut short has no alpha, which
      compares as not visible. */
  predicate Drawn(data: seq<int>, i: nat) {
    i + 3 < |data| && data[i + 3] > 0 && !(data[i] == 255 && data[i + 1] == 255 && data[i + 2] == 255)
  }

  /** The scan over the RGBA bytes, four at a time, stopping at the first
      drawn pixel. */
  method HasContent(data: seq<int>) returns (hasContent: bool)
    ensures hasContent <==> exists i :: 0 <= i < |data| && i % 4 == 0 && Drawn(data, i)
  {
    hasContent := false;
    var i := 0;
    while i < |data|
      invariant 0 <= i && i % 4 == 0
      invariant forall j :: 0 <= j < i && j % 4 == 0 ==> !Drawn(data, j)
      decreases |data| - i
    {
      var r, g, b := data[i], (if i + 1 < |data| then data[i + 1] else -1), (if i + 2 < |data| then data[i + 2] else -1);
      var visible := i + 3 < |data| && data[i + 3] > 0;
      if !(r == 255 && g == 255 && b == 255) && visible {
        assert Drawn(data, i);
        hasContent := true;
        break;
      }
      i := i + 4;
    }
  }

  /** `results.slice(0, 5)`: at most the five best labels, in order. */
  function TopLabels(labels: seq<string>): (top: seq<string>)
    ensures |top| == if |labels| < 5 then |labels| else 5
    ensures top == labels[..|top|]
  {
    labels[..SliceEnd(|labels|, 5)]
  }

  /** `label.split(",")[0].trim().toLowerCase()` */
  function MainKeyword(name: string): string {
    Lower(Trim(BeforeFirst(name, ',')))
  }

  /** The main keyword is the first comma-separated part of the label: it
      holds no comma. */
  lemma MainKeywordNoComma(name: string)
    ensures ',' !in MainKeyword(name)
  {
    var first := BeforeFirst(name, ',');
    var trimmed := Trim(first);
    NoCommaInInfix(first, trimmed);
    LowerKeepsShape(trimmed);
  }

  /** It is no longer than the label and has no white space at either end. */
  lemma MainKeywordTrimmed(name: string)
    ensures |MainKeyword(name)| <= |name|
    ensures MainKeyword(name) == [] || (!IsWhitespace(MainKeyword(name)[0]) && !IsWhitespace(MainKeyword(name)[|MainKeyword(name)| - 1]))
  {
    var first := BeforeFirst(name, ',');
    var trimmed := Trim(first);
    LowerKeepsShape(trimmed);
    assert |Lower(trimmed)| == |trimmed| <= |first| <= |name|;
  }

  /** It is the label's first comma-separated part with exactly the white
      space at its ends removed, then lower-cased. */
  lemma MainKeywordIsFirstPart(name: string)
    ensures exists a: nat, t: string :: TrimmedAt(BeforeFirst(name, ','), t, a)
    ensures forall a: nat, t: string :: TrimmedAt(BeforeFirst(name, ','), t, a) ==> MainKeyword(name) == Lower(t)
  {
    var first := BeforeFirst(name, ',');
    var trimmed := Trim(first);
    var a0: nat :| TrimmedAt(first, trimmed, a0);
    forall a: nat, t: string | TrimmedAt(first, t, a)
      ensures MainKeyword(name) == Lower(t)
    {
      TrimmedUnique(first, trimmed, a0, t, a);
    }
  }

  /** It holds no capital letter. */
  lemma MainKeywordLowerCase(name: string)
    ensures forall i :: 0 <= i < |MainKeyword(name)| ==> !('A' <= MainKeyword(name)[i] <= 'Z')
  {
    LowerKeepsShape(Trim(BeforeFirst(name, ',')));
  }

  lemma LowerKeepsShape(t: string)
    requires t == [] || (!IsWhitespace(t[0]) && !IsWhitespace(t[|t| - 1]))
    ensures ',' in Lower(t) ==> ',' in t
    ensures Lower(t) == [] || (!IsWhitespace(Lower(t)[0]) && !IsWhitespace(Lower(t)[|t| - 1]))
    ensures forall i :: 0 <= i < |t| ==> !('A' <= Lower(t)[i] <= 'Z')
  {
    var k := Lower(t);
    if ',' in k {
      var j :| 0 <= j < |k| && k[j] == ',';
      assert t[j] == ',';
    }
  }

  lemma NoCommaInInfix(s: string, t: string)
    requires ',' !in s && Contains(s, t)
    ensures ',' !in t
  {
    var i: nat :| i <= |s| && OccursAt(s, t, i);
  }

  /** The keyword handed to the writer after a classification: the main
      keyword of the best label, when there is one and a listener. */
  function Recognized(labels: seq<string>, listening: bool): (r: Option<string>)
    ensures r.Some? <==> labels != [] && listening
    ensures r.Some? ==> r.value == MainKeyword(labels[0]) && r.value == MainKeyword(TopLabels(labels)[0])
  {
    var top := TopLabels(labels);
    if |top| > 0 && listening then Some(MainKeyword(top[0])) else None
  }
}
