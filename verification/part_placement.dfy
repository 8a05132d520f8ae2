/** The index bookkeeping of the part placement editor tool: the letter
    labels drawn next to connection points, the scroll wheel cycling the
    selected connection point, and the resets that keep the selected index
    inside the current part's list of connection points. */
module PartPlacement {
  import opened Types

  /** A UTF-16 code unit: the value of a C# `char`. */
  type CodeUnit = x: int | 0 <= x < 0x1_0000

  /** The unchecked C# conversion `(char)n`: keeps the low sixteen bits. */
  function ToChar(n: int): (c: CodeUnit)
    ensures 0 <= n < 0x1_0000 ==> c == n
    ensures (c - n) % 0x1_0000 == 0
  {
    n % 0x1_0000
  }

  /** The code units of a literal. */
  function Text(s: string): (r: seq<CodeUnit>)
    ensures |r| == |s|
    ensures forall k :: 0 <= k < |s| && s[k] as int < 0x1_0000 ==> r[k] == s[k] as int
  {
    seq(|s|, k requires 0 <= k < |s| => s[k] as int % 0x1_0000)
  }

  const LetterA: int := 'A' as int
  const LetterZ: int := 'Z' as int

  predicate IsLetter(c: CodeUnit)
  {
    LetterA <= c <= LetterZ
  }

  /** `GetConnectionPointLabel`: "A" to "Z" for the first 26 indices, then
      two letters, the first counting the completed rounds of 26. */
  function Label(index: Int32): (r: seq<CodeUnit>)
    ensures index < 26 ==> |r| == 1
    ensures index >= 26 ==> |r| == 2
    ensures 0 <= index < 26 * 27 ==> forall k :: 0 <= k < |r| ==> IsLetter(r[k])
  {
    if index < 26 then [ToChar(LetterA + index)]
    else
      var first := index / 26 - 1;
      var second := index % 26;
      [ToChar(LetterA + first), ToChar(LetterA + second)]
  }

  /** The reading of a label back to the index it names: a single letter
      names its place in the alphabet, a pair names `26 * (first + 1) + second`.
      Anything else names no index. */
  function LabelIndex(name: seq<CodeUnit>): (r: Option<nat>)
    ensures r.Some? ==> r.value < 26 * 27
  {
    if |name| == 1 && IsLetter(name[0]) then Some(name[0] - LetterA)
    else if |name| == 2 && IsLetter(name[0]) && IsLetter(name[1]) then
      Some(26 * (name[0] - LetterA + 1) + (name[1] - LetterA))
    else None
  }

  /** The 702 indices from 0 to 701 get the 702 labels of one or two
      letters, and each label reads back as its index. */
  lemma LabelRoundTrip(index: Int32)
    requires 0 <= index < 26 * 27
    ensures LabelIndex(Label(index)) == Some(index)
  {
    if index >= 26 {
      var first := index / 26 - 1;
      var second := index % 26;
      assert index == 26 * (first + 1) + second;
    }
  }

  /** Every label of one or two capital letters is the label of the index it
      reads as. */
  lemma LabelIndexRoundTrip(name: seq<CodeUnit>)
    requires LabelIndex(name).Some?
    ensures Label(LabelIndex(name).value) == name
  {
    var i := LabelIndex(name).value;
    if |name| == 2 {
      var a := name[0] - LetterA;
      var b := name[1] - LetterA;
      assert i == 26 * (a + 1) + b && 0 <= b < 26;
      assert i / 26 == a + 1 && i % 26 == b;
    }
  }

  /** No two connection points among the first 702 share a label. */
  lemma LabelsDistinct(i: Int32, j: Int32)
    requires 0 <= i < 26 * 27 && 0 <= j < 26 * 27
    requires i != j
    ensures Label(i) != Label(j)
  {
    LabelRoundTrip(i);
    LabelRoundTrip(j);
  }

  /** The documented sequence: A, Z, AA, AZ, BA, ZZ. */
  lemma LabelExamples()
    ensures Label(0) == Text("A")
    ensures Label(25) == Text("Z")
    ensures Label(26) == Text("AA")
    ensures Label(51) == Text("AZ")
    ensures Label(52) == Text("BA")
    ensures Label(701) == Text("ZZ")
  {
  }

  /** Past "ZZ" the first code unit runs beyond 'Z': index 702 is labelled
      "[A", and no index from 702 until the sixteen-bit wrap of the first
      code unit gets a capital letter in front. */
  lemma LabelPastZZ(index: Int32)
    requires 26 * 27 <= index < 26 * 0xFFC0
    ensures |Label(index)| == 2 && !IsLetter(Label(index)[0])
    ensures index == 26 * 27 ==> Label(index) == Text("[A")
  {
  }

  /** `HandleInput`'s scroll-wheel branch on the selected index, for a part
      with `count > 0` connection points: a positive `deltaY` moves forward,
      a negative one back (both unchecked `int` steps), and an index that
      falls out of `[0, count)` wraps to the other end. */
  function ScrollIndex(index: Int32, count: nat, deltaY: real): (r: Int32)
    requires 0 < count < 0x8000_0000
    ensures 0 <= r < count
    ensures deltaY == 0.0 && 0 <= index < count ==> r == index
  {
    var moved := if deltaY > 0.0 then Wrap32(index + 1)
                 else if deltaY < 0.0 then Wrap32(index - 1)
                 else index;
    if moved < 0 then count - 1
    else if moved >= count then 0
    else moved
  }

  /** On an index inside the list, the scroll wheel is a step around a cycle
      of length `count`. */
  lemma ScrollIsCyclic(index: Int32, count: nat, deltaY: real)
    requires 0 < count < 0x8000_0000
    requires 0 <= index < count
    ensures deltaY > 0.0 ==> ScrollIndex(index, count, deltaY) == (index + 1) % count
    ensures deltaY < 0.0 ==> ScrollIndex(index, count, deltaY) == (index - 1) % count
  {
    if deltaY > 0.0 {
      if index + 1 < count {
        ModOf(index + 1, count, 0, index + 1);
      } else {
        ModOf(index + 1, count, 1, 0);
      }
    } else if deltaY < 0.0 {
      if index > 0 {
        ModOf(index - 1, count, 0, index - 1);
      } else {
        ModOf(index - 1, count, -1, count - 1);
      }
    }
  }

  /** The remainder is determined by any quotient that leaves it in range. */
  lemma ModOf(x: int, c: int, q: int, y: int)
    requires c > 0 && 0 <= y < c
    requires x == q * c + y
    ensures x % c == y
  {
    var q' := x / c;
    var y' := x % c;
    assert x == q' * c + y';
    var k := q - q';
    assert k * c == y' - y by {
      assert q * c - q' * c == (q - q') * c;
    }
    if k > 0 {
      MulAtLeast(k, c);
    } else if k < 0 {
      MulAtMost(k, c);
    }
  }

  lemma MulAtLeast(k: int, c: int)
    requires k >= 1 && c > 0
    ensures k * c >= c
  {
    assert k * c == (k - 1) * c + c;
  }

  lemma MulAtMost(k: int, c: int)
    requires k <= -1 && c > 0
    ensures k * c <= -c
  {
    assert k * c == (k + 1) * c - c;
  }

  /** Scrolling back undoes scrolling forward, and the other way round. */
  lemma ScrollBackUndoes(index: Int32, count: nat, up: real, down: real)
    requires 0 < count < 0x8000_0000
    requires 0 <= index < count
    requires up < 0.0 < down
    ensures ScrollIndex(ScrollIndex(index, count, down), count, up) == index
    ensures ScrollIndex(ScrollIndex(index, count, up), count, down) == index
  {
  }

  /** The wrap at both ends of the list. */
  lemma ScrollWraps(count: nat, up: real, down: real)
    requires 0 < count < 0x8000_0000
    requires up < 0.0 < down
    ensures ScrollIndex(count - 1, count, down) == 0
    ensures ScrollIndex(0, count, up) == count - 1
  {
  }

  /** `int.MaxValue + 1` wraps to `int.MinValue`, which the wrap rule turns
      into the last index rather than the first. */
  lemma ScrollOverflow(count: nat, down: real)
    requires 0 < count < 0x8000_0000
    requires 0.0 < down
    ensures ScrollIndex(0x7FFF_FFFF, count, down) == count - 1
  {
  }

  /** A scene object as far as the tool looks at it: its identity and, when
      it carries a `Part` component, that part's connection point count
      (`None` when the part data or its list is missing). */
  datatype SceneObject = SceneObject(id: nat, part: Option<Option<nat>>)

  /** The tool's cached selection: the selected prefab, its connection point
      count (`None` when `selectedPartData` or its list is null) and the
      selected connection point index. */
  datatype Tool = Tool(prefab: Option<SceneObject>, points: Option<nat>, index: Int32)

  /** The editor starts with nothing selected and index 0. */
  const InitialTool: Tool := Tool(None, None, 0)

  /** Unity's `null` test: a missing reference, or one to an object that has
      been destroyed (its id is in `destroyed`). */
  predicate IsNull(o: Option<SceneObject>, destroyed: set<nat>)
  {
    o.None? || o.value.id in destroyed
  }

  /** Unity's `==` on two scene objects. Two references are compared by
      instance id, destroyed or not; a missing reference equals exactly the
      missing and the destroyed ones. So a selected object whose `Part`
      changed is still the same selection, and a destroyed cached prefab
      equals an empty selection, but two distinct destroyed objects differ. */
  predicate SameObject(a: Option<SceneObject>, b: Option<SceneObject>, destroyed: set<nat>)
  {
    if a.None? then IsNull(b, destroyed)
    else if b.None? then IsNull(a, destroyed)
    else a.value.id == b.value.id
  }

  /** `UpdateSelectedPartPrefab`, with `destroyed` the ids of the objects
      destroyed so far: an unchanged selection changes nothing; otherwise the
      cache is cleared, and when the new selection is a live object carrying
      a part it becomes the prefab and the index restarts at 0. A selection
      without a part leaves the index as it was. */
  function SelectPart(t: Tool, selection: Option<SceneObject>, destroyed: set<nat>): (r: Tool)
    ensures SameObject(selection, t.prefab, destroyed) ==> r == t
    ensures !SameObject(selection, t.prefab, destroyed) && !IsNull(selection, destroyed) && selection.value.part.Some? ==>
              r == Tool(selection, selection.value.part.value, 0)
    ensures !SameObject(selection, t.prefab, destroyed) && (IsNull(selection, destroyed) || selection.value.part.None?) ==>
              r.prefab.None? && r.points.None? && r.index == t.index
  {
    if SameObject(selection, t.prefab, destroyed) then t
    else if IsNull(selection, destroyed) then Tool(None, None, t.index)
    else match selection.value.part
      case None => Tool(None, None, t.index)
      case Some(points) => Tool(selection, points, 0)
  }

  /** The cache is kept while the same object stays selected: removing its
      `Part`, or changing its connection points, keeps the cached count and
      index until a different object is selected. Destroying the selected
      prefab empties the selection, which Unity compares equal to the
      destroyed prefab, so the cache survives and the scroll wheel still
      acts on it. A destroyed object other than the prefab is a different
      object, so it clears the cache. */
  lemma SelectionKeepsCache(t: Tool)
    requires t.prefab == Some(SceneObject(7, Some(Some(3)))) && t.points == Some(3) && t.index == 2
    ensures SelectPart(t, Some(SceneObject(7, None)), {}) == t
    ensures SelectPart(t, Some(SceneObject(7, Some(Some(5)))), {}) == t
    ensures SelectPart(t, Some(SceneObject(8, Some(Some(5)))), {}) == Tool(Some(SceneObject(8, Some(Some(5)))), Some(5), 0)
    ensures SelectPart(t, None, {}) == Tool(None, None, 2)
    ensures SelectPart(t, None, {7}) == t
    ensures Scroll(SelectPart(t, None, {7}), -1.0).index == 1
    ensures SelectPart(t, Some(SceneObject(9, Some(Some(4)))), {7, 9}) == Tool(None, None, 2)
  {
  }

  /** The scroll-wheel event: it acts only when a part with at least one
      connection point is selected. */
  function Scroll(t: Tool, deltaY: real): (r: Tool)
    requires t.points.Some? ==> t.points.value < 0x8000_0000
    ensures r.prefab == t.prefab && r.points == t.points
    ensures (t.points.None? || t.points.value == 0) ==> r == t
    ensures t.points.Some? && t.points.value > 0 ==> 0 <= r.index < t.points.value
  {
    match t.points
    case Some(n) => if n > 0 then t.(index := ScrollIndex(t.index, n, deltaY)) else t
    case None => t
  }

  /** The wireframe preview, drawn when a connection point lies near the
      mouse (`showing`) and the selected part has a mesh and at least one
      connection point: an index past the end of the list is reset to 0, then
      the connection point at the index is read. The result is the tool
      afterwards and the index read, or the exception the read throws. */
  function Preview(t: Tool, showing: bool): (r: Result<(Tool, Option<nat>)>)
    ensures r.Success? && showing && t.points.Some? && t.points.value > 0 ==>
              var read := if t.index >= t.points.value then 0 else t.index;
              r.value.1 == Some(read) && r.value.0.index == read
    ensures !(showing && t.points.Some? && t.points.value > 0) ==> r == Success((t, None))
    ensures r.Success? && r.value.1.Some? ==>
              t.points.Some? && r.value.1.value < t.points.value && r.value.0.index == r.value.1.value
    ensures r.Success? ==> r.value.0.prefab == t.prefab && r.value.0.points == t.points
    ensures r.Success? && r.value.1.None? ==> r.value.0 == t
    ensures r.Failure? <==> showing && t.points.Some? && t.points.value > 0 && t.index < 0
  {
    if showing && t.points.Some? && t.points.value > 0 then
      var index := if t.index >= t.points.value then 0 else t.index;
      if index < 0 then Failure(ArgumentOutOfRange)
      else Success((t.(index := index), Some(index)))
    else Success((t, None))
  }

  /** The events the tool reacts to. */
  datatype ToolEvent =
    | SelectionChanged(selection: Option<SceneObject>, destroyed: set<nat>)
    | ScrollWheel(deltaY: real)
    | Repaint(showing: bool)

  /** Every connection point count fits a C# `int`. */
  predicate Realistic(e: ToolEvent)
  {
    e.SelectionChanged? && e.selection.Some? && e.selection.value.part.Some? && e.selection.value.part.value.Some? ==>
      e.selection.value.part.value.value < 0x8000_0000
  }

  /** The tool state the editor maintains: the index is never negative, and
      the count is an `int`. */
  predicate Valid(t: Tool)
  {
    && t.index >= 0
    && (t.points.Some? ==> t.points.value < 0x8000_0000)
  }

  /** One event. A failing preview would abort the scene GUI callback; it
      leaves the tool as it was. */
  function Step(t: Tool, e: ToolEvent): (r: Tool)
    requires t.points.Some? ==> t.points.value < 0x8000_0000
    requires Realistic(e)
    ensures r.points.Some? ==> r.points.value < 0x8000_0000
  {
    match e
    case SelectionChanged(selection, destroyed) => SelectPart(t, selection, destroyed)
    case ScrollWheel(deltaY) => Scroll(t, deltaY)
    case Repaint(showing) =>
      match Preview(t, showing)
      case Success((t', _)) => t'
      case Failure(_) => t
  }

  /** The tool after a run of events, from the left. */
  function Run(t: Tool, events: seq<ToolEvent>): (r: Tool)
    requires t.points.Some? ==> t.points.value < 0x8000_0000
    requires forall k :: 0 <= k < |events| ==> Realistic(events[k])
    ensures r.points.Some? ==> r.points.value < 0x8000_0000
    decreases |events|
  {
    if |events| == 0 then t else Step(Run(t, events[..|events| - 1]), events[|events| - 1])
  }

  /** Every event keeps the index non-negative. */
  lemma StepKeepsValid(t: Tool, e: ToolEvent)
    requires Valid(t) && Realistic(e)
    ensures Valid(Step(t, e))
  {
  }

  /** From a freshly opened editor, whatever the events, the index stays
      non-negative, so the preview never reads before the start of the list. */
  lemma {:induction false} RunKeepsValid(events: seq<ToolEvent>)
    requires forall k :: 0 <= k < |events| ==> Realistic(events[k])
    ensures Valid(Run(InitialTool, events))
    ensures forall showing :: Preview(Run(InitialTool, events), showing).Success?
    decreases |events|
  {
    if |events| > 0 {
      var init := events[..|events| - 1];
      assert forall k :: 0 <= k < |init| ==> Realistic(init[k]) by {
        forall k | 0 <= k < |init| ensures Realistic(init[k]) {
          assert init[k] == events[k];
        }
      }
      RunKeepsValid(init);
      StepKeepsValid(Run(InitialTool, init), events[|events| - 1]);
    }
  }
}
