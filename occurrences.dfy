/**
 * The parser's identifier instances and the editor's positions, ranges and
 * locations, together with the three pieces the providers share: the cursor
 * locator (the `find` repeated at index.ts:44-49, 101-106 and 143-148), the
 * identity grouping (index.ts:57-61, 153-157) and the conversion of a 1-based
 * inclusive span to a 0-based editor range (index.ts:62-72, 111-117, 177-186).
 */
module Occurrences {
  import opened Wrappers
  import Seqs

  /** The `context` of an identifier instance. */
  datatype Role = Declaration | ImplicitDeclaration | Reference

  /**
   * One identifier instance as the parser reports it: `kind` is the parser's
   * `type` (its namespace), `line` is 1-based and `fromColumn..toColumn` is
   * the 1-based inclusive span on that line.
   */
  datatype Occ = Occ(
    kind: string,
    normalized: string,
    verbatim: string,
    line: int,
    fromColumn: int,
    toColumn: int,
    role: Role)

  /** The parser's result: `valid` with the identifier instances in document order, or `invalid`. */
  datatype Parsed = Valid(occs: seq<Occ>) | Invalid

  /** The editor's 0-based cursor. */
  datatype Position = Position(line: int, character: int)

  /** The editor's 0-based range; `end` is exclusive. */
  datatype Range = Range(start: Position, end: Position)

  /** The document's URI; opaque here and passed through unmodified. */
  type Uri = string

  datatype Location = Location(uri: Uri, range: Range)

  // ----- Cursor locator -----

  /**
   * The `find` predicate: the instance lies on the cursor's line and its
   * inclusive span contains the cursor's 1-based column.
   */
  predicate Touches(o: Occ, pos: Position)
  {
    var line, column := pos.line + 1, pos.character + 1;
    o.line == line && o.fromColumn <= column && o.toColumn >= column
  }

  /**
   * `occs.find(...)`: the first instance, in document order, under the cursor,
   * or `None` when there is none.
   */
  function Locate(occs: seq<Occ>, pos: Position): (r: Option<Occ>)
    ensures r.None? <==> forall i :: 0 <= i < |occs| ==> !Touches(occs[i], pos)
    ensures r.Some? ==>
      exists i :: 0 <= i < |occs| && occs[i] == r.value && Touches(occs[i], pos)
        && forall j :: 0 <= j < i ==> !Touches(occs[j], pos)
  {
    if |occs| == 0 then None
    else if Touches(occs[0], pos) then Some(occs[0])
    else
      var r := Locate(occs[1..], pos);
      assert forall j :: 1 <= j < |occs| ==> occs[j] == occs[1..][j - 1];
      r
  }

  /** Conversely, the first instance under the cursor is the one located. */
  lemma LocateFindsFirst(occs: seq<Occ>, pos: Position, i: nat)
    requires i < |occs| && Touches(occs[i], pos)
    requires forall j :: 0 <= j < i ==> !Touches(occs[j], pos)
    ensures Locate(occs, pos) == Some(occs[i])
  {
  }

  // ----- Identity grouping -----

  /** Two instances denote the same identifier when their `type` and `normalized` agree. */
  predicate SameIdentifier(a: Occ, b: Occ)
  {
    a.kind == b.kind && a.normalized == b.normalized
  }

  /** The instances that denote the same identifier as `target`, in document order. */
  function Group(occs: seq<Occ>, target: Occ): seq<Occ>
  {
    Seqs.Filter(o => SameIdentifier(o, target), occs)
  }

  /**
   * The group holds exactly the instances that share the target's `type` and
   * `normalized`, each as often as it occurs in the document.
   */
  lemma GroupMultiplicity(occs: seq<Occ>, target: Occ, x: Occ)
    ensures multiset(Group(occs, target))[x] == if SameIdentifier(x, target) then multiset(occs)[x] else 0
    ensures x in Group(occs, target) <==> x in occs && SameIdentifier(x, target)
  {
    Seqs.FilterMembers(o => SameIdentifier(o, target), occs, x);
  }

  /** The group of a suffix of the document, one instance at a time. */
  lemma GroupStep(occs: seq<Occ>, k: nat, target: Occ)
    requires k < |occs|
    ensures Group(occs[k..], target) ==
      (if SameIdentifier(occs[k], target) then [occs[k]] else []) + Group(occs[k + 1..], target)
  {
    assert occs[k..] == [occs[k]] + occs[k + 1..];
    Seqs.FilterConcat(o => SameIdentifier(o, target), [occs[k]], occs[k + 1..]);
  }

  /** Grouping is symmetric: every member of a group has the same group. */
  lemma GroupOfMember(occs: seq<Occ>, target: Occ, x: Occ)
    requires x in Group(occs, target)
    ensures Group(occs, x) == Group(occs, target)
  {
    GroupMultiplicity(occs, target, x);
    Seqs.FilterSamePredicate(o => SameIdentifier(o, x), o => SameIdentifier(o, target), occs);
  }

  /** The located instance belongs to its own group. */
  lemma LocatedInOwnGroup(occs: seq<Occ>, pos: Position)
    requires Locate(occs, pos).Some?
    ensures Locate(occs, pos).value in Group(occs, Locate(occs, pos).value)
  {
    var t := Locate(occs, pos).value;
    GroupMultiplicity(occs, t, t);
  }

  // ----- Range conversion -----

  /** The 0-based editor range of a 1-based inclusive span: `(line-1, from-1)` to `(line-1, to)`. */
  function ToRange(o: Occ): (r: Range)
    ensures r.start.line == r.end.line == o.line - 1
    ensures r.end.character - r.start.character == o.toColumn - o.fromColumn + 1
  {
    var line := o.line - 1;
    Range(Position(line, o.fromColumn - 1), Position(line, o.toColumn))
  }

  function ToLocation(uri: Uri, o: Occ): Location
  {
    Location(uri, ToRange(o))
  }

  /**
   * The converted range covers exactly the 0-based cursors the locator accepts
   * for that instance: a cursor touches `o` iff it sits on the range's line at a
   * character in `[start, end)`. In particular the cursor just before the range
   * and the one at its (exclusive) end do not touch `o`.
   */
  lemma RangeMatchesTouches(o: Occ, pos: Position)
    ensures Touches(o, pos) <==>
      pos.line == ToRange(o).start.line && ToRange(o).start.character <= pos.character < ToRange(o).end.character
    ensures !Touches(o, Position(o.line - 1, ToRange(o).start.character - 1))
    ensures !Touches(o, Position(o.line - 1, ToRange(o).end.character))
  {
  }
}
