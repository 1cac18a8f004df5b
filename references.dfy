/**
 * The reference provider (index.ts:127-194): the group of the instance under
 * the cursor, either whole or, without `includeDeclaration`, as two buckets —
 * the implicit declarations after the first, then the references — mapped to
 * locations in the document.
 */
module References {
  import opened Wrappers
  import opened Occurrences
  import Seqs

  /** The group members of one role, in document order. */
  function WithRole(group: seq<Occ>, role: Role): seq<Occ>
  {
    Seqs.Filter((o: Occ) => o.role == role, group)
  }

  /**
   * The instances reported for a group: all of them with `includeDeclaration`;
   * otherwise `implicitDeclaration` members after the first, followed by the
   * `reference` members, concatenated without re-sorting.
   */
  function Selection(group: seq<Occ>, includeDeclaration: bool): seq<Occ>
  {
    if includeDeclaration then group
    else Seqs.DropFirst(WithRole(group, ImplicitDeclaration)) + WithRole(group, Reference)
  }

  /** `provideReferences`, with `None` for its `null`. */
  function ProvideReferences(text: string, uri: Uri, pos: Position, includeDeclaration: bool,
                             parse: string -> Parsed): Option<seq<Location>>
  {
    match parse(text)
    case Invalid => None
    case Valid(occs) =>
      match Locate(occs, pos)
      case None => None
      case Some(target) =>
        Some(Seqs.Map(o => ToLocation(uri, o), Selection(Group(occs, target), includeDeclaration)))
  }

  // ----- Properties -----

  /** The provider answers exactly when the parse is valid and an instance is under the cursor. */
  lemma ReferencesNullCases(text: string, uri: Uri, pos: Position, includeDeclaration: bool,
                            parse: string -> Parsed)
    ensures ProvideReferences(text, uri, pos, includeDeclaration, parse).Some? <==>
      parse(text).Valid? && Locate(parse(text).occs, pos).Some?
  {
  }

  /**
   * With `includeDeclaration` the answer is the whole group, in document order:
   * one location per instance sharing the target's `type` and `normalized`, the
   * target's own among them.
   */
  lemma ReferencesWithDeclaration(text: string, uri: Uri, pos: Position, parse: string -> Parsed)
    requires ProvideReferences(text, uri, pos, true, parse).Some?
    ensures var locs, occs, target := ProvideReferences(text, uri, pos, true, parse).value,
                                      parse(text).occs, Locate(parse(text).occs, pos).value;
      var group := Group(occs, target);
      && |locs| == |group|
      && (forall i :: 0 <= i < |locs| ==> locs[i] == Location(uri, ToRange(group[i])))
      && Location(uri, ToRange(target)) in locs
  {
    var locs, occs, target := ProvideReferences(text, uri, pos, true, parse).value,
                              parse(text).occs, Locate(parse(text).occs, pos).value;
    var group := Group(occs, target);
    LocatedInOwnGroup(occs, pos);
    var k :| 0 <= k < |group| && group[k] == target;
    assert locs[k] == Location(uri, ToRange(target));
  }

  /**
   * Without `includeDeclaration` the answer lists, in order, the two buckets
   * of the target's group; every location is that of a group member which is
   * not a declaration, and there are `max(#implicit - 1, 0) + #reference` of them.
   */
  lemma ReferencesWithoutDeclaration(text: string, uri: Uri, pos: Position, parse: string -> Parsed)
    requires ProvideReferences(text, uri, pos, false, parse).Some?
    ensures var locs, occs, target := ProvideReferences(text, uri, pos, false, parse).value,
                                      parse(text).occs, Locate(parse(text).occs, pos).value;
      var group := Group(occs, target);
      var selected := Selection(group, false);
      var implicits, references := |WithRole(group, ImplicitDeclaration)|, |WithRole(group, Reference)|;
      && |locs| == |selected| == (if implicits > 0 then implicits - 1 else 0) + references
      && forall i :: 0 <= i < |locs| ==>
           && locs[i] == Location(uri, ToRange(selected[i]))
           && selected[i] in occs && SameIdentifier(selected[i], target)
           && selected[i].role != Declaration
  {
    var occs, target := parse(text).occs, Locate(parse(text).occs, pos).value;
    var group := Group(occs, target);
    var selected := Selection(group, false);
    SelectionLength(group);
    forall i | 0 <= i < |selected|
      ensures selected[i] in occs && SameIdentifier(selected[i], target) && selected[i].role != Declaration
    {
      var x := selected[i];
      SelectionPartition(group, x);
      assert multiset(selected)[x] > 0;
      GroupMultiplicity(occs, target, x);
    }
  }

  /**
   * Without `includeDeclaration`, the selection drops every declaration and
   * the first implicit declaration (the earliest in document order) and keeps
   * every other member exactly as often as it is in the group.
   */
  lemma SelectionPartition(group: seq<Occ>, x: Occ)
    ensures var implicits := WithRole(group, ImplicitDeclaration);
      multiset(Selection(group, false))[x] as int ==
        if x.role == Reference then multiset(group)[x]
        else if x.role == ImplicitDeclaration then
          multiset(group)[x] as int - (if |implicits| > 0 && x == implicits[0] then 1 else 0)
        else 0
    ensures x in Selection(group, false) ==> x.role != Declaration
  {
    var implicits := WithRole(group, ImplicitDeclaration);
    var references := WithRole(group, Reference);
    assert multiset(Selection(group, false)) == multiset(Seqs.DropFirst(implicits)) + multiset(references);
    assert x in Selection(group, false) <==> multiset(Selection(group, false))[x] > 0;
  }

  /** The first implicit declaration the selection drops is the earliest one in the group. */
  lemma SelectionDropsEarliestImplicit(group: seq<Occ>)
    requires |WithRole(group, ImplicitDeclaration)| > 0
    ensures exists i ::
      && 0 <= i < |group| && group[i] == WithRole(group, ImplicitDeclaration)[0]
      && group[i].role == ImplicitDeclaration
      && forall j :: 0 <= j < i ==> group[j].role != ImplicitDeclaration
  {
    Seqs.FilterHead((o: Occ) => o.role == ImplicitDeclaration, group);
  }

  /** Without `includeDeclaration` the answer has `max(#implicit - 1, 0) + #reference` locations. */
  lemma SelectionLength(group: seq<Occ>)
    ensures var implicits, references := |WithRole(group, ImplicitDeclaration)|, |WithRole(group, Reference)|;
      |Selection(group, false)| == (if implicits > 0 then implicits - 1 else 0) + references
  {
  }

  /**
   * The buckets are concatenated, not merged: a later implicit declaration is
   * listed before an earlier reference.
   */
  lemma SelectionIsNotDocumentOrder()
    ensures var first := Occ("k", "n", "N", 1, 1, 1, ImplicitDeclaration);
      var reference := Occ("k", "n", "N", 2, 1, 1, Reference);
      var later := Occ("k", "n", "N", 3, 1, 1, ImplicitDeclaration);
      Selection([first, reference, later], false) == [later, reference]
  {
    var first := Occ("k", "n", "N", 1, 1, 1, ImplicitDeclaration);
    var reference := Occ("k", "n", "N", 2, 1, 1, Reference);
    var later := Occ("k", "n", "N", 3, 1, 1, ImplicitDeclaration);
    var group := [first, reference, later];
    assert group[1..] == [reference, later] && group[1..][1..] == [later] && [later][1..] == [];
    assert WithRole([later], ImplicitDeclaration) == [later];
    assert WithRole([later], Reference) == [];
    assert WithRole([reference, later], ImplicitDeclaration) == [later];
    assert WithRole([reference, later], Reference) == [reference];
    assert WithRole(group, ImplicitDeclaration) == [first, later];
    assert WithRole(group, Reference) == [reference];
  }
}
