/**
 * Vertex-buffer layouts of the primitive meshes.
 *
 * An attribute set is a list of buffers, each a list of attribute entries.
 * The three named attributes (position, normal, uv) take 3, 3 and 2 float
 * elements; any other entry is a number whose floor is the element count of
 * an unnamed attribute. Parsing checks the set and computes, per buffer, the
 * number of float elements one vertex takes, and where each named attribute
 * sits; packing interleaves per-vertex data along that layout.
 */
module PrimitiveLayout {

  /** One entry of an attribute buffer. `Elements(n)` is an entry whose floor
    * is the integer `n`; `NotANumber` an entry whose floor is NaN (a string
    * other than the three attribute names, for instance). */
  datatype Attribute = Position | Normal | Uv | Elements(floor: int) | NotANumber

  /** A JavaScript value that is either an array of `T` or not an array at all. */
  datatype Entry<T> = Array(items: seq<T>) | NonArray

  /** The exceptions `parseAttributeSet` throws. */
  datatype ParseError =
    | NotAnArray
    | BufferNotAnArray
    | PositionRepeated
    | NormalRepeated
    | UvRepeated
    | ElementsNotPositive
    | PositionMissing

  datatype Result<T> = Ok(value: T) | Fail(error: ParseError)

  /** The record `parseAttributeSet` returns; absent attributes have index and offset -1. */
  datatype Layout = Layout(
    attributeBufferElementsList: seq<int>,
    positionBufferIndex: int,
    normalBufferIndex: int,
    uvBufferIndex: int,
    positionBufferOffset: int,
    normalBufferOffset: int,
    uvBufferOffset: int)

  /** Number of float elements an entry takes in a vertex. */
  function Width(a: Attribute): int {
    match a
    case Position => 3
    case Normal => 3
    case Uv => 2
    case Elements(n) => n
    case NotANumber => 0
  }

  /** An entry the parser accepts: a named attribute or a positive count. */
  predicate Accepted(a: Attribute) {
    match a
    case Elements(n) => n > 0
    case NotANumber => false
    case _ => true
  }

  function SumWidths(attrs: seq<Attribute>): int {
    if |attrs| == 0 then 0 else SumWidths(attrs[..|attrs| - 1]) + Width(attrs[|attrs| - 1])
  }

  /** Occurrences of `a` in one buffer. */
  function Count(attrs: seq<Attribute>, a: Attribute): nat {
    if |attrs| == 0 then 0
    else Count(attrs[..|attrs| - 1], a) + (if attrs[|attrs| - 1] == a then 1 else 0)
  }

  /** Occurrences of `a` across all buffers that are arrays. */
  function CountAll(buffers: seq<Entry<Attribute>>, a: Attribute): nat {
    if |buffers| == 0 then 0
    else
      var last := buffers[|buffers| - 1];
      CountAll(buffers[..|buffers| - 1], a) + (if last.Array? then Count(last.items, a) else 0)
  }

  predicate AllArrays(buffers: seq<Entry<Attribute>>) {
    forall i :: 0 <= i < |buffers| ==> buffers[i].Array?
  }

  predicate AllAccepted(buffers: seq<Entry<Attribute>>) {
    forall i, j :: 0 <= i < |buffers| && buffers[i].Array? && 0 <= j < |buffers[i].items| ==> Accepted(buffers[i].items[j])
  }

  /** The attribute sets `parseAttributeSet` accepts. */
  predicate Valid(s: Entry<Entry<Attribute>>) {
    s.Array? && AllArrays(s.items) && AllAccepted(s.items) &&
    CountAll(s.items, Position) == 1 && CountAll(s.items, Normal) <= 1 && CountAll(s.items, Uv) <= 1
  }

  /** Attribute `a` is an entry of buffer `bi`, and `off` is the sum of the widths before it. */
  predicate At(buffers: seq<Entry<Attribute>>, a: Attribute, bi: int, off: int) {
    0 <= bi < |buffers| && buffers[bi].Array? &&
    exists j :: 0 <= j < |buffers[bi].items| && buffers[bi].items[j] == a && off == SumWidths(buffers[bi].items[..j])
  }

  /** What the scan has recorded about one named attribute: its flag, buffer index and offset. */
  datatype Found = Found(use: bool, index: int, offset: int)

  const NotFound := Found(false, -1, -1)

  /** After `c` occurrences of `a`, `f` records whether and where `a` was seen. */
  predicate Tracks(buffers: seq<Entry<Attribute>>, a: Attribute, c: nat, f: Found) {
    c <= 1 && (f.use <==> c == 1) && (f.use ==> At(buffers, a, f.index, f.offset)) && (!f.use ==> f == NotFound)
  }

  /** The layout `parseAttributeSet` computes for an accepted set of buffers. */
  predicate Describes(layout: Layout, buffers: seq<Entry<Attribute>>) {
    |layout.attributeBufferElementsList| == |buffers| &&
    (forall i :: 0 <= i < |buffers| && buffers[i].Array? ==> layout.attributeBufferElementsList[i] == SumWidths(buffers[i].items)) &&
    At(buffers, Position, layout.positionBufferIndex, layout.positionBufferOffset) &&
    Tracks(buffers, Normal, CountAll(buffers, Normal), Found(CountAll(buffers, Normal) == 1, layout.normalBufferIndex, layout.normalBufferOffset)) &&
    Tracks(buffers, Uv, CountAll(buffers, Uv), Found(CountAll(buffers, Uv) == 1, layout.uvBufferIndex, layout.uvBufferOffset))
  }

  lemma {:induction false} CountPrefix(attrs: seq<Attribute>, j: nat, a: Attribute)
    requires j <= |attrs|
    ensures Count(attrs[..j], a) <= Count(attrs, a)
    decreases |attrs|
  {
    if j < |attrs| {
      var m := |attrs| - 1;
      assert attrs[..m][..j] == attrs[..j];
      CountPrefix(attrs[..m], j, a);
    } else {
      assert attrs[..j] == attrs;
    }
  }

  lemma {:induction false} CountAllPrefix(buffers: seq<Entry<Attribute>>, i: nat, a: Attribute)
    requires i <= |buffers|
    ensures CountAll(buffers[..i], a) <= CountAll(buffers, a)
    decreases |buffers|
  {
    if i < |buffers| {
      var m := |buffers| - 1;
      assert buffers[..m][..i] == buffers[..i];
      CountAllPrefix(buffers[..m], i, a);
    } else {
      assert buffers[..i] == buffers;
    }
  }

  /** Occurrences seen while scanning entry `j` of buffer `i` are at most all occurrences. */
  lemma SeenAtMostAll(buffers: seq<Entry<Attribute>>, i: nat, j: nat, a: Attribute)
    requires i < |buffers| && buffers[i].Array? && j <= |buffers[i].items|
    ensures CountAll(buffers[..i], a) + Count(buffers[i].items[..j], a) <= CountAll(buffers, a)
  {
    assert buffers[..i + 1][..i] == buffers[..i];
    CountPrefix(buffers[i].items, j, a);
    CountAllPrefix(buffers, i + 1, a);
  }

  /** Scanning entry `j` of buffer `i` that equals `a` marks it as at that entry's offset. */
  lemma MarkAt(buffers: seq<Entry<Attribute>>, i: nat, j: nat, a: Attribute)
    requires i < |buffers| && buffers[i].Array? && j < |buffers[i].items| && buffers[i].items[j] == a
    ensures At(buffers, a, i, SumWidths(buffers[i].items[..j]))
  {
  }

  /** One entry more of the buffer being scanned. */
  lemma ScanStep(attrs: seq<Attribute>, j: nat, a: Attribute)
    requires j < |attrs|
    ensures Count(attrs[..j + 1], a) == Count(attrs[..j], a) + (if attrs[j] == a then 1 else 0)
    ensures SumWidths(attrs[..j + 1]) == SumWidths(attrs[..j]) + Width(attrs[j])
  {
    assert attrs[..j + 1][..j] == attrs[..j];
  }

  /** One entry more of a buffer's width sum. */
  lemma WidthStep(attrs: seq<Attribute>, j: nat)
    requires j < |attrs|
    ensures SumWidths(attrs[..j + 1]) == SumWidths(attrs[..j]) + Width(attrs[j])
  {
    assert attrs[..j + 1][..j] == attrs[..j];
  }

  /** Every entry of an array buffer of an accepted set is accepted. */
  lemma BufferAccepted(buffers: seq<Entry<Attribute>>, bi: nat)
    requires AllAccepted(buffers) && bi < |buffers| && buffers[bi].Array?
    ensures forall x :: 0 <= x < |buffers[bi].items| ==> Accepted(buffers[bi].items[x])
  {
  }

  /** One buffer more of the set being scanned. */
  lemma BufferStep(buffers: seq<Entry<Attribute>>, i: nat, a: Attribute)
    requires i < |buffers| && buffers[i].Array?
    ensures CountAll(buffers[..i + 1], a) == CountAll(buffers[..i], a) + Count(buffers[i].items[..|buffers[i].items|], a)
  {
    assert buffers[..i + 1][..i] == buffers[..i];
    assert buffers[i].items[..|buffers[i].items|] == buffers[i].items;
  }


  /** The outcome of scanning one buffer: its element count and the updated records. */
  datatype Scanned = Scanned(elements: int, position: Found, normal: Found, uv: Found)

  /** The records are right after the first `j` entries of buffer `i` have been scanned. */
  predicate Scanning(buffers: seq<Entry<Attribute>>, i: nat, j: nat, s: Scanned)
    requires i < |buffers| && buffers[i].Array? && j <= |buffers[i].items|
  {
    var attrs := buffers[i].items;
    s.elements == SumWidths(attrs[..j]) &&
    (forall k :: 0 <= k < j ==> Accepted(attrs[k])) &&
    Tracks(buffers, Position, CountAll(buffers[..i], Position) + Count(attrs[..j], Position), s.position) &&
    Tracks(buffers, Normal, CountAll(buffers[..i], Normal) + Count(attrs[..j], Normal), s.normal) &&
    Tracks(buffers, Uv, CountAll(buffers[..i], Uv) + Count(attrs[..j], Uv), s.uv)
  }

  /** One iteration of the parser's inner loop: entry `j` of buffer `i`. */
  method ScanEntry(buffers: seq<Entry<Attribute>>, i: nat, j: nat, s: Scanned) returns (r: Result<Scanned>)
    requires i < |buffers| && buffers[i].Array? && j < |buffers[i].items|
    requires Scanning(buffers, i, j, s)
    ensures r.Ok? ==> Scanning(buffers, i, j + 1, r.value)
    ensures r == Fail(PositionRepeated) ==> CountAll(buffers, Position) >= 2
    ensures r == Fail(NormalRepeated) ==> CountAll(buffers, Normal) >= 2
    ensures r == Fail(UvRepeated) ==> CountAll(buffers, Uv) >= 2
    ensures r == Fail(ElementsNotPositive) ==> !AllAccepted(buffers)
    ensures r.Fail? ==> r.error in {PositionRepeated, NormalRepeated, UvRepeated, ElementsNotPositive}
  {
    var attrs := buffers[i].items;
    var attribute := attrs[j];
    var offset := s.elements;
    ScanStep(attrs, j, Position);
    ScanStep(attrs, j, Normal);
    ScanStep(attrs, j, Uv);
    if attribute == Position {
      if s.position.use {
        SeenAtMostAll(buffers, i, j + 1, Position);
        return Fail(PositionRepeated);
      }
      MarkAt(buffers, i, j, Position);
      r := Ok(s.(elements := offset + 3, position := Found(true, i, offset)));
    } else if attribute == Normal {
      if s.normal.use {
        SeenAtMostAll(buffers, i, j + 1, Normal);
        return Fail(NormalRepeated);
      }
      MarkAt(buffers, i, j, Normal);
      r := Ok(s.(elements := offset + 3, normal := Found(true, i, offset)));
    } else if attribute == Uv {
      if s.uv.use {
        SeenAtMostAll(buffers, i, j + 1, Uv);
        return Fail(UvRepeated);
      }
      MarkAt(buffers, i, j, Uv);
      r := Ok(s.(elements := offset + 2, uv := Found(true, i, offset)));
    } else {
      var num := if attribute.Elements? then attribute.floor else 0;
      if num > 0 {
        r := Ok(s.(elements := offset + num));
      } else {
        assert !Accepted(buffers[i].items[j]);
        r := Fail(ElementsNotPositive);
      }
    }
  }

  /**
   * The inner loop of the parser: scans the entries of buffer `i`, summing
   * their widths and recording the named attributes it meets.
   */
  method ScanBuffer(buffers: seq<Entry<Attribute>>, i: nat, position: Found, normal: Found, uv: Found)
    returns (r: Result<Scanned>)
    requires i < |buffers| && buffers[i].Array?
    requires Tracks(buffers, Position, CountAll(buffers[..i], Position), position)
    requires Tracks(buffers, Normal, CountAll(buffers[..i], Normal), normal)
    requires Tracks(buffers, Uv, CountAll(buffers[..i], Uv), uv)
    ensures r.Ok? ==> r.value.elements == SumWidths(buffers[i].items)
    ensures r.Ok? ==> forall k :: 0 <= k < |buffers[i].items| ==> Accepted(buffers[i].items[k])
    ensures r.Ok? ==> Tracks(buffers, Position, CountAll(buffers[..i + 1], Position), r.value.position)
    ensures r.Ok? ==> Tracks(buffers, Normal, CountAll(buffers[..i + 1], Normal), r.value.normal)
    ensures r.Ok? ==> Tracks(buffers, Uv, CountAll(buffers[..i + 1], Uv), r.value.uv)
    ensures r == Fail(PositionRepeated) ==> CountAll(buffers, Position) >= 2
    ensures r == Fail(NormalRepeated) ==> CountAll(buffers, Normal) >= 2
    ensures r == Fail(UvRepeated) ==> CountAll(buffers, Uv) >= 2
    ensures r == Fail(ElementsNotPositive) ==> !AllAccepted(buffers)
    ensures r.Fail? ==> r.error in {PositionRepeated, NormalRepeated, UvRepeated, ElementsNotPositive}
  {
    var attrs := buffers[i].items;
    var scanned := Scanned(0, position, normal, uv);
    assert attrs[..0] == [];
    var j := 0;
    while j < |attrs|
      invariant j <= |attrs| && Scanning(buffers, i, j, scanned)
    {
      r := ScanEntry(buffers, i, j, scanned);
      if r.Fail? {
        return;
      }
      scanned := r.value;
      j := j + 1;
    }
    BufferStep(buffers, i, Position);
    BufferStep(buffers, i, Normal);
    BufferStep(buffers, i, Uv);
    assert attrs[..j] == attrs;
    r := Ok(scanned);
  }

  /** What the parser knows after its first `i` buffers: the loop invariant of its outer loop. */
  predicate ParsedPrefix(buffers: seq<Entry<Attribute>>, i: nat, elementsList: seq<int>, position: Found, normal: Found, uv: Found)
    requires i <= |buffers|
  {
    |elementsList| == i && AllArrays(buffers[..i]) && AllAccepted(buffers[..i]) &&
    (forall k :: 0 <= k < i ==> buffers[k].Array? && elementsList[k] == SumWidths(buffers[k].items)) &&
    Tracks(buffers, Position, CountAll(buffers[..i], Position), position) &&
    Tracks(buffers, Normal, CountAll(buffers[..i], Normal), normal) &&
    Tracks(buffers, Uv, CountAll(buffers[..i], Uv), uv)
  }

  /** A buffer scanned without error extends what the parser knows by one buffer. */
  lemma ParsedStep(buffers: seq<Entry<Attribute>>, i: nat, elementsList: seq<int>, position: Found, normal: Found, uv: Found, s: Scanned)
    requires i < |buffers| && buffers[i].Array? && ParsedPrefix(buffers, i, elementsList, position, normal, uv)
    requires s.elements == SumWidths(buffers[i].items)
    requires forall k :: 0 <= k < |buffers[i].items| ==> Accepted(buffers[i].items[k])
    requires Tracks(buffers, Position, CountAll(buffers[..i + 1], Position), s.position)
    requires Tracks(buffers, Normal, CountAll(buffers[..i + 1], Normal), s.normal)
    requires Tracks(buffers, Uv, CountAll(buffers[..i + 1], Uv), s.uv)
    ensures ParsedPrefix(buffers, i + 1, elementsList + [s.elements], s.position, s.normal, s.uv)
  {
    var prefix := buffers[..i + 1];
    assert prefix[i] == buffers[i];
    assert forall k :: 0 <= k < i ==> prefix[k] == buffers[..i][k];
  }

  /**
   * Validates an attribute set and computes its layout, scanning buffers and
   * entries in order and failing at the first entry that breaks a rule.
   */
  method ParseAttributeSet(attributeSet: Entry<Entry<Attribute>>) returns (r: Result<Layout>)
    ensures r.Ok? <==> Valid(attributeSet)
    ensures r.Ok? ==> Describes(r.value, attributeSet.items)
    ensures r == Fail(NotAnArray) <==> attributeSet.NonArray?
    ensures r == Fail(BufferNotAnArray) ==> attributeSet.Array? && !AllArrays(attributeSet.items)
    ensures r == Fail(PositionRepeated) ==> attributeSet.Array? && CountAll(attributeSet.items, Position) >= 2
    ensures r == Fail(NormalRepeated) ==> attributeSet.Array? && CountAll(attributeSet.items, Normal) >= 2
    ensures r == Fail(UvRepeated) ==> attributeSet.Array? && CountAll(attributeSet.items, Uv) >= 2
    ensures r == Fail(ElementsNotPositive) ==> attributeSet.Array? && !AllAccepted(attributeSet.items)
    ensures r == Fail(PositionMissing) ==> attributeSet.Array? && CountAll(attributeSet.items, Position) == 0
  {
    if attributeSet.NonArray? {
      return Fail(NotAnArray);
    }
    var buffers := attributeSet.items;
    var elementsList: seq<int> := [];
    var position, normal, uv := NotFound, NotFound, NotFound;
    assert buffers[..0] == [];
    var i := 0;
    while i < |buffers|
      invariant i <= |buffers| && ParsedPrefix(buffers, i, elementsList, position, normal, uv)
    {
      if buffers[i].NonArray? {
        return Fail(BufferNotAnArray);
      }
      var scanned := ScanBuffer(buffers, i, position, normal, uv);
      if scanned.Fail? {
        return Fail(scanned.error);
      }
      ParsedStep(buffers, i, elementsList, position, normal, uv, scanned.value);
      elementsList := elementsList + [scanned.value.elements];
      position, normal, uv := scanned.value.position, scanned.value.normal, scanned.value.uv;
      i := i + 1;
    }
    assert buffers[..i] == buffers;
    if !position.use {
      return Fail(PositionMissing);
    }
    r := Ok(Layout(elementsList, position.index, normal.index, uv.index,
                   position.offset, normal.offset, uv.offset));
  }

  /**
   * What packing relies on: every buffer takes a non-negative number of
   * elements, each recorded attribute lies inside its buffer's vertex, and
   * two attributes recorded in the same buffer do not overlap.
   */
  predicate LayoutFits(layout: Layout) {
    var elements := layout.attributeBufferElementsList;
    (forall i :: 0 <= i < |elements| ==> elements[i] >= 0) &&
    InBuffer(elements, layout.positionBufferIndex, layout.positionBufferOffset, 3) &&
    (layout.normalBufferIndex == -1 || InBuffer(elements, layout.normalBufferIndex, layout.normalBufferOffset, 3)) &&
    (layout.uvBufferIndex == -1 || InBuffer(elements, layout.uvBufferIndex, layout.uvBufferOffset, 2)) &&
    (layout.positionBufferIndex == layout.normalBufferIndex ==>
       Apart(layout.positionBufferOffset, 3, layout.normalBufferOffset, 3)) &&
    (layout.positionBufferIndex == layout.uvBufferIndex ==>
       Apart(layout.positionBufferOffset, 3, layout.uvBufferOffset, 2)) &&
    (layout.normalBufferIndex == layout.uvBufferIndex && layout.normalBufferIndex != -1 ==>
       Apart(layout.normalBufferOffset, 3, layout.uvBufferOffset, 2))
  }

  predicate InBuffer(elements: seq<int>, index: int, offset: int, width: nat) {
    0 <= index < |elements| && 0 <= offset && offset + width <= elements[index]
  }

  /** The element ranges [a, a + wa) and [b, b + wb) do not overlap. */
  predicate Apart(a: int, wa: nat, b: int, wb: nat) {
    a + wa <= b || b + wb <= a
  }

  lemma {:induction false} SumWidthsPrefix(attrs: seq<Attribute>, j: nat, k: nat)
    requires j <= k <= |attrs|
    requires forall x :: 0 <= x < |attrs| ==> Accepted(attrs[x])
    ensures 0 <= SumWidths(attrs[..j]) <= SumWidths(attrs[..k])
    decreases k
  {
    if k == 0 {
      assert attrs[..0] == [];
    } else {
      WidthStep(attrs, k - 1);
      if j == k {
        SumWidthsPrefix(attrs, j - 1, j - 1);
      } else {
        SumWidthsPrefix(attrs, j, k - 1);
      }
    }
  }

  /** A recorded attribute starts at a non-negative offset and ends inside its buffer. */
  lemma AtFits(buffers: seq<Entry<Attribute>>, a: Attribute, bi: int, off: int)
    requires AllAccepted(buffers) && At(buffers, a, bi, off)
    ensures 0 <= off && off + Width(a) <= SumWidths(buffers[bi].items)
  {
    var attrs := buffers[bi].items;
    BufferAccepted(buffers, bi);
    var j :| 0 <= j < |attrs| && attrs[j] == a && off == SumWidths(attrs[..j]);
    WidthStep(attrs, j);
    SumWidthsPrefix(attrs, j, j + 1);
    SumWidthsPrefix(attrs, j + 1, |attrs|);
    assert attrs[..|attrs|] == attrs;
  }

  /** Two different attributes recorded in the same buffer occupy disjoint ranges. */
  lemma AtApart(buffers: seq<Entry<Attribute>>, a: Attribute, offA: int, b: Attribute, offB: int, bi: int)
    requires a != b && AllAccepted(buffers) && At(buffers, a, bi, offA) && At(buffers, b, bi, offB)
    ensures offA + Width(a) <= offB || offB + Width(b) <= offA
  {
    var attrs := buffers[bi].items;
    BufferAccepted(buffers, bi);
    var ja :| 0 <= ja < |attrs| && attrs[ja] == a && offA == SumWidths(attrs[..ja]);
    var jb :| 0 <= jb < |attrs| && attrs[jb] == b && offB == SumWidths(attrs[..jb]);
    if ja < jb {
      EntryBefore(attrs, ja, jb);
    } else {
      EntryBefore(attrs, jb, ja);
    }
  }

  /** An accepted entry ends no later than where a later entry starts. */
  lemma EntryBefore(attrs: seq<Attribute>, j: nat, k: nat)
    requires j < k <= |attrs|
    requires forall x :: 0 <= x < |attrs| ==> Accepted(attrs[x])
    ensures SumWidths(attrs[..j]) + Width(attrs[j]) <= SumWidths(attrs[..k])
  {
    WidthStep(attrs, j);
    SumWidthsPrefix(attrs, j + 1, k);
  }

  /** The layout of an accepted attribute set fits: offsets plus widths stay inside their buffers and never overlap. */
  lemma ParsedLayoutFits(s: Entry<Entry<Attribute>>, layout: Layout)
    requires Valid(s) && Describes(layout, s.items)
    ensures LayoutFits(layout)
  {
    var buffers := s.items;
    forall i | 0 <= i < |buffers|
      ensures layout.attributeBufferElementsList[i] >= 0
    {
      SumWidthsPrefix(buffers[i].items, 0, |buffers[i].items|);
      assert buffers[i].items[..|buffers[i].items|] == buffers[i].items;
    }
    AtFits(buffers, Position, layout.positionBufferIndex, layout.positionBufferOffset);
    if layout.normalBufferIndex != -1 {
      AtFits(buffers, Normal, layout.normalBufferIndex, layout.normalBufferOffset);
      if layout.positionBufferIndex == layout.normalBufferIndex {
        AtApart(buffers, Position, layout.positionBufferOffset, Normal, layout.normalBufferOffset, layout.normalBufferIndex);
      }
    }
    if layout.uvBufferIndex != -1 {
      AtFits(buffers, Uv, layout.uvBufferIndex, layout.uvBufferOffset);
      if layout.positionBufferIndex == layout.uvBufferIndex {
        AtApart(buffers, Position, layout.positionBufferOffset, Uv, layout.uvBufferOffset, layout.uvBufferIndex);
      }
      if layout.normalBufferIndex == layout.uvBufferIndex && layout.normalBufferIndex != -1 {
        AtApart(buffers, Normal, layout.normalBufferOffset, Uv, layout.uvBufferOffset, layout.uvBufferIndex);
      }
    }
  }
}
