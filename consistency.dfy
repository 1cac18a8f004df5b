/**
 * How the two providers relate on the same document and cursor: a rename
 * replaces exactly the ranges that find-references (with declarations)
 * reports, in the same order.
 */
module Consistency {
  import opened Occurrences
  import Rename
  import References

  lemma ReferencesMatchRenameRanges(text: string, uri: Uri, pos: Position, newName: string,
                                    parse: string -> Parsed, identifierIsValid: string -> bool)
    requires Rename.RenameEdits(text, uri, pos, newName, parse, identifierIsValid).Some?
    ensures References.ProvideReferences(text, uri, pos, true, parse).Some?
    ensures var edits, locs := Rename.RenameEdits(text, uri, pos, newName, parse, identifierIsValid).value,
                               References.ProvideReferences(text, uri, pos, true, parse).value;
      && |locs| == |edits|
      && forall i :: 0 <= i < |locs| ==> locs[i] == Location(edits[i].uri, edits[i].range)
  {
    Rename.RenameEditsComplete(text, uri, pos, newName, parse, identifierIsValid);
    References.ReferencesWithDeclaration(text, uri, pos, parse);
  }
}
