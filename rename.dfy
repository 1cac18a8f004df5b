/**
 * The rename provider (index.ts:26-125): `provideRenameEdits`, which builds a
 * workspace edit replacing every instance of the identifier under the cursor,
 * and `prepareRename`, which reports the range and text the editor offers for
 * editing. The parser and the identifier-validity check are foreign and are
 * passed in as functions.
 */
module Rename {
  import opened Wrappers
  import opened Occurrences
  import Seqs
  import Text

  /** One `replace(uri, range, newName)` recorded on a workspace edit. */
  datatype Replacement = Replacement(uri: Uri, range: Range, newName: string)

  /** What `prepareRename` hands back: the range to edit and its current text. */
  datatype RenamePlaceholder = RenamePlaceholder(range: Range, placeholder: string)

  /** The replacement the rename loop records for one group member. */
  function EditOf(uri: Uri, name: string, o: Occ): Replacement
  {
    Replacement(uri, ToRange(o), name)
  }

  /** One replacement per group member of `target` in `occs`, in document order. */
  function GroupEdits(uri: Uri, occs: seq<Occ>, target: Occ, name: string): seq<Replacement>
  {
    Seqs.Map(o => EditOf(uri, name, o), Group(occs, target))
  }

  /**
   * What the loop of `provideRenameEdits` has recorded after scanning `occs`:
   * the replacements so far, plus one more if the next instance belongs to
   * the group.
   */
  function ScannedEdits(uri: Uri, occs: seq<Occ>, target: Occ, name: string): seq<Replacement>
  {
    if |occs| == 0 then []
    else
      var last := occs[|occs| - 1];
      ScannedEdits(uri, occs[..|occs| - 1], target, name)
        + if SameIdentifier(last, target) then [EditOf(uri, name, last)] else []
  }

  /** The scan records exactly one replacement per group member, in document order. */
  lemma {:induction false} ScannedEditsAreGroupEdits(uri: Uri, occs: seq<Occ>, target: Occ, name: string)
    ensures ScannedEdits(uri, occs, target, name) == GroupEdits(uri, occs, target, name)
  {
    if |occs| > 0 {
      var init, last := occs[..|occs| - 1], occs[|occs| - 1];
      assert occs == init + [last];
      ScannedEditsAreGroupEdits(uri, init, target, name);
      Seqs.FilterConcat(o => SameIdentifier(o, target), init, [last]);
      assert Group(occs, target) == Group(init, target) + Group([last], target);
      Seqs.MapConcat(o => EditOf(uri, name, o), Group(init, target), Group([last], target));
      assert Seqs.Map(o => EditOf(uri, name, o), Group([last], target))
        == if SameIdentifier(last, target) then [EditOf(uri, name, last)] else [];
    }
  }

  /**
   * The replacements `provideRenameEdits` produces, or `None` for its `null`:
   * the trimmed name is checked first, then the parse, then the cursor.
   */
  function RenameEdits(text: string, uri: Uri, pos: Position, newName: string,
                       parse: string -> Parsed, identifierIsValid: string -> bool): Option<seq<Replacement>>
  {
    var name := Text.Trim(newName);
    if !identifierIsValid(name) then None
    else match parse(text)
      case Invalid => None
      case Valid(occs) =>
        match Locate(occs, pos)
        case None => None
        case Some(target) => Some(GroupEdits(uri, occs, target, name))
  }

  /** The host's `WorkspaceEdit`, reduced to the list of replacements it records. */
  class WorkspaceEdit {
    var replacements: seq<Replacement>

    constructor ()
      ensures replacements == []
    {
      replacements := [];
    }

    method Replace(uri: Uri, range: Range, newName: string)
      modifies this
      ensures replacements == old(replacements) + [Replacement(uri, range, newName)]
    {
      replacements := replacements + [Replacement(uri, range, newName)];
    }
  }

  /**
   * `provideRenameEdits`: trims the name, rejects it unless it is a valid
   * identifier, parses, locates the instance under the cursor, and then
   * builds the workspace edit for that instance's group.
   */
  method ProvideRenameEdits(text: string, uri: Uri, position: Position, newName: string,
                            parse: string -> Parsed, identifierIsValid: string -> bool)
    returns (r: Option<WorkspaceEdit>)
    ensures r.None? <==> RenameEdits(text, uri, position, newName, parse, identifierIsValid).None?
    ensures r.Some? ==>
      fresh(r.value) && r.value.replacements == RenameEdits(text, uri, position, newName, parse, identifierIsValid).value
  {
    var name := Text.Trim(newName);
    if !identifierIsValid(name) {
      return None;
    }
    var parsed := parse(text);
    if parsed.Invalid? {
      return None;
    }
    var found := Locate(parsed.occs, position);
    if found.None? {
      return None;
    }
    var edit := BuildEdit(uri, parsed.occs, found.value, name);
    return Some(edit);
  }

  /**
   * The loop of `provideRenameEdits`: scans every instance in document order
   * and records a replacement for each one of the same identifier as `target`.
   */
  method BuildEdit(uri: Uri, occs: seq<Occ>, target: Occ, name: string) returns (edit: WorkspaceEdit)
    ensures fresh(edit) && edit.replacements == GroupEdits(uri, occs, target, name)
  {
    edit := new WorkspaceEdit();
    var i := 0;
    while i < |occs|
      invariant 0 <= i <= |occs|
      invariant edit.replacements == ScannedEdits(uri, occs[..i], target, name)
    {
      var other := occs[i];
      assert occs[..i + 1][..i] == occs[..i];
      if SameIdentifier(other, target) {
        var line := other.line - 1;
        edit.Replace(uri, Range(Position(line, other.fromColumn - 1), Position(line, other.toColumn)), name);
      }
      i := i + 1;
    }
    assert occs[..i] == occs;
    ScannedEditsAreGroupEdits(uri, occs, target, name);
  }

  /** `prepareRename`: the located instance's range and verbatim text, or `None` for `null`. */
  function PrepareRename(text: string, pos: Position, parse: string -> Parsed): Option<RenamePlaceholder>
  {
    match parse(text)
    case Invalid => None
    case Valid(occs) =>
      match Locate(occs, pos)
      case None => None
      case Some(target) => Some(RenamePlaceholder(ToRange(target), target.verbatim))
  }

  // ----- Properties -----

  /** An invalid trimmed name is refused whatever the document, its parse and the cursor. */
  lemma RenameRejectsInvalidName(text: string, uri: Uri, pos: Position, newName: string,
                                 parse: string -> Parsed, identifierIsValid: string -> bool)
    requires !identifierIsValid(Text.Trim(newName))
    ensures RenameEdits(text, uri, pos, newName, parse, identifierIsValid).None?
  {
  }

  /** The rename yields edits exactly when the name is valid, the parse is valid and an instance is under the cursor. */
  lemma RenameNullCases(text: string, uri: Uri, pos: Position, newName: string,
                        parse: string -> Parsed, identifierIsValid: string -> bool)
    ensures RenameEdits(text, uri, pos, newName, parse, identifierIsValid).Some? <==>
      identifierIsValid(Text.Trim(newName)) && parse(text).Valid? && Locate(parse(text).occs, pos).Some?
  {
  }

  /**
   * The edits are one replacement per instance sharing the target's `type` and
   * `normalized`, the target's own included, in document order; each carries
   * the same trimmed name; and each replaces the span of such an instance.
   */
  lemma RenameEditsComplete(text: string, uri: Uri, pos: Position, newName: string,
                            parse: string -> Parsed, identifierIsValid: string -> bool)
    requires RenameEdits(text, uri, pos, newName, parse, identifierIsValid).Some?
    ensures var edits, occs, target := RenameEdits(text, uri, pos, newName, parse, identifierIsValid).value,
                                       parse(text).occs, Locate(parse(text).occs, pos).value;
      var group := Group(occs, target);
      && |edits| == |group|
      && (forall i :: 0 <= i < |edits| ==>
            edits[i] == Replacement(uri, ToRange(group[i]), Text.Trim(newName)))
      && (forall e :: e in edits ==>
            exists o :: o in occs && SameIdentifier(o, target) && e.range == ToRange(o))
      && Replacement(uri, ToRange(target), Text.Trim(newName)) in edits
  {
    var edits, occs, target := RenameEdits(text, uri, pos, newName, parse, identifierIsValid).value,
                               parse(text).occs, Locate(parse(text).occs, pos).value;
    var group := Group(occs, target);
    var name := Text.Trim(newName);
    forall e | e in edits
      ensures exists o :: o in occs && SameIdentifier(o, target) && e.range == ToRange(o)
    {
      var i :| 0 <= i < |edits| && edits[i] == e;
      assert group[i] in group;
      GroupMultiplicity(occs, target, group[i]);
    }
    LocatedInOwnGroup(occs, pos);
    var k :| 0 <= k < |group| && group[k] == target;
    assert edits[k] == Replacement(uri, ToRange(target), name);
  }

  /** Every replacement carries whitespace-free-at-the-edges text. */
  lemma RenameNameIsTrimmed(text: string, uri: Uri, pos: Position, newName: string,
                            parse: string -> Parsed, identifierIsValid: string -> bool)
    requires RenameEdits(text, uri, pos, newName, parse, identifierIsValid).Some?
    ensures forall e :: e in RenameEdits(text, uri, pos, newName, parse, identifierIsValid).value ==>
      e.newName == Text.Trim(newName)
      && (e.newName == [] || (!Text.IsWhitespace(e.newName[0]) && !Text.IsWhitespace(e.newName[|e.newName| - 1])))
  {
    Text.TrimIsWhitespaceStripped(newName);
  }

  /**
   * `prepareRename` answers exactly when the parse is valid and an instance is
   * under the cursor; it returns that instance's converted range, which
   * contains the cursor, and its verbatim text as the placeholder.
   */
  lemma PrepareRenameSpec(text: string, pos: Position, parse: string -> Parsed)
    ensures PrepareRename(text, pos, parse).Some? <==> parse(text).Valid? && Locate(parse(text).occs, pos).Some?
    ensures PrepareRename(text, pos, parse).Some? ==>
      var p, target := PrepareRename(text, pos, parse).value, Locate(parse(text).occs, pos).value;
      && p.range == ToRange(target)
      && p.placeholder == target.verbatim
      && p.range.start.line == p.range.end.line == pos.line
      && p.range.start.character <= pos.character < p.range.end.character
  {
    if PrepareRename(text, pos, parse).Some? {
      RangeMatchesTouches(Locate(parse(text).occs, pos).value, pos);
    }
  }

  /**
   * The two rename requests agree: whenever the rename produces edits,
   * `prepareRename` on the same document and cursor answers too, and the range
   * it offers is one of the ranges the rename replaces.
   */
  lemma PrepareAgreesWithRename(text: string, uri: Uri, pos: Position, newName: string,
                                parse: string -> Parsed, identifierIsValid: string -> bool)
    requires RenameEdits(text, uri, pos, newName, parse, identifierIsValid).Some?
    ensures PrepareRename(text, pos, parse).Some?
    ensures Replacement(uri, PrepareRename(text, pos, parse).value.range, Text.Trim(newName))
      in RenameEdits(text, uri, pos, newName, parse, identifierIsValid).value
  {
    RenameEditsComplete(text, uri, pos, newName, parse, identifierIsValid);
  }
}
