/**
 * Concrete documents and expected answers from the repository's unit tests
 * (unit.ts). The parser is not part of this model, so each document is given
 * as the identifier instances it evidently parses to: the kinds, roles and
 * normalized keys below are that reading of the test documents, with each
 * normalized key reduced to the letter that tells the identifiers apart.
 * No rename test fixes a role, and rename ignores roles, so the rename
 * document gives every instance `ImplicitDeclaration`, the role the reference
 * document gives its characters and emotes. In the reference document the
 * tests fix only the roles under the cursor (a declaration, a reference, an
 * implicit declaration); the other roles are consistent with its expected
 * answers.
 *
 * Each answer is proved in small steps, so that no proof has to unfold the
 * whole literal document at once: a lemma reads the needed facts off the
 * document, others compute the locator's answer and the group, and a last one
 * assembles the provider's answer from those facts alone.
 */
module Scenarios {
  import opened Wrappers
  import opened Occurrences
  import Rename
  import References
  import Text
  import Seqs

  const TestUri: Uri := "Example Text Document Uri"

  /** An instance of `Example Identifier <letter>`, which is 20 characters wide. */
  function Instance(kind: string, letter: char, line: int, fromColumn: int, role: Role): Occ
  {
    Occ(kind, [letter], "Example Identifier " + [letter], line, fromColumn, fromColumn + 19, role)
  }

  /** A parser that yields `occs` for every text. */
  function ParsesTo(occs: seq<Occ>): string -> Parsed
  {
    _ => Valid(occs)
  }

  function Loc(line: int, from: int, to: int): Location
  {
    Location(TestUri, Range(Position(line, from), Position(line, to)))
  }

  // ----- Rename (unit.ts:248-710) -----

  /**
   * The eight-line rename document of unit.ts:366-374: seven `Location:` lines
   * naming backgrounds A and B, and the line `Example Identifier B is Example
   * Identifier A.` naming a character B and an emote A.
   */
  const RenameDocument: seq<Occ> := [
    Instance("background", 'A', 1, 11, ImplicitDeclaration),
    Instance("background", 'B', 2, 11, ImplicitDeclaration),
    Instance("background", 'A', 3, 11, ImplicitDeclaration),
    Instance("character", 'B', 4, 1, ImplicitDeclaration),
    Instance("emote", 'A', 4, 25, ImplicitDeclaration),
    Instance("background", 'B', 5, 11, ImplicitDeclaration),
    Instance("background", 'A', 6, 11, ImplicitDeclaration),
    Instance("background", 'B', 7, 11, ImplicitDeclaration),
    Instance("background", 'A', 8, 11, ImplicitDeclaration)
  ]

  /** The new name of unit.ts:379 (and 426, 473), with the whitespace the provider trims away. */
  lemma TrimmedNewName()
    ensures Text.Trim(" \n \r \t Example Identifier C \n \r \t ") == "Example Identifier C"
  {
    assert " \n \r \t Example Identifier C \n \r \t " == " \n \r \t " + "Example Identifier C" + " \n \r \t ";
    Text.TrimRemovesPadding(" \n \r \t ", "Example Identifier C", " \n \r \t ");
  }

  /**
   * A cursor anywhere from the first character (10) to the last (29) of the
   * background B on line 5 touches it, and it is the first instance to do so.
   */
  lemma RenameCursorOnBackgroundB(d: seq<Occ>, character: int)
    requires d == RenameDocument && 10 <= character <= 29
    ensures Locate(d, Position(4, character)) == Some(d[5])
  {
    forall i | 0 <= i < 5
      ensures !Touches(d[i], Position(4, character))
    {
    }
    LocateFindsFirst(d, Position(4, character), 5);
  }

  /** The cursor one character before it touches nothing. */
  lemma RenameCursorBefore(d: seq<Occ>)
    requires d == RenameDocument
    ensures Locate(d, Position(4, 9)).None?
  {
    forall i | 0 <= i < |d|
      ensures !Touches(d[i], Position(4, 9))
    {
    }
  }

  /** The cursor one character after it touches nothing. */
  lemma RenameCursorAfter(d: seq<Occ>)
    requires d == RenameDocument
    ensures Locate(d, Position(4, 30)).None?
  {
    forall i | 0 <= i < |d|
      ensures !Touches(d[i], Position(4, 30))
    {
    }
  }

  /** The instances of the rename document that share the identity of the background B on line 5. */
  predicate BackgroundBFacts(d: seq<Occ>)
  {
    && |d| == 9
    && d[1] == Instance("background", 'B', 2, 11, ImplicitDeclaration)
    && d[5] == Instance("background", 'B', 5, 11, ImplicitDeclaration)
    && d[7] == Instance("background", 'B', 7, 11, ImplicitDeclaration)
    && SameIdentifier(d[1], d[5])
    && SameIdentifier(d[7], d[5])
    && !SameIdentifier(d[0], d[5]) && !SameIdentifier(d[2], d[5]) && !SameIdentifier(d[3], d[5]) && !SameIdentifier(d[4], d[5])
    && !SameIdentifier(d[6], d[5]) && !SameIdentifier(d[8], d[5])
  }

  lemma BackgroundBShape(d: seq<Occ>)
    requires d == RenameDocument
    ensures BackgroundBFacts(d)
  {
  }

  /** The group of the background B: lines 2, 5 and 7, without the character B of line 4. */
  lemma BackgroundBGroup(d: seq<Occ>)
    requires BackgroundBFacts(d)
    ensures Group(d, d[5]) == [d[1], d[5], d[7]]
  {
    assert d[9..] == [];
    GroupStep(d, 8, d[5]);
    assert Group(d[8..], d[5]) == [];
    GroupStep(d, 7, d[5]);
    assert Group(d[7..], d[5]) == [d[7]];
    GroupStep(d, 6, d[5]);
    assert Group(d[6..], d[5]) == [d[7]];
    GroupStep(d, 5, d[5]);
    assert Group(d[5..], d[5]) == [d[5], d[7]];
    GroupStep(d, 4, d[5]);
    assert Group(d[4..], d[5]) == [d[5], d[7]];
    GroupStep(d, 3, d[5]);
    assert Group(d[3..], d[5]) == [d[5], d[7]];
    GroupStep(d, 2, d[5]);
    assert Group(d[2..], d[5]) == [d[5], d[7]];
    GroupStep(d, 1, d[5]);
    assert Group(d[1..], d[5]) == [d[1], d[5], d[7]];
    GroupStep(d, 0, d[5]);
    assert Group(d[0..], d[5]) == [d[1], d[5], d[7]];
    assert d[0..] == d;
  }

  function RenameExpected(): seq<Rename.Replacement>
  {
    [
      Rename.Replacement(TestUri, Range(Position(1, 10), Position(1, 30)), "Example Identifier C"),
      Rename.Replacement(TestUri, Range(Position(4, 10), Position(4, 30)), "Example Identifier C"),
      Rename.Replacement(TestUri, Range(Position(6, 10), Position(6, 30)), "Example Identifier C")
    ]
  }

  /** The replacements for the three backgrounds B. */
  lemma EditsOfBackgroundB(a: Occ, b: Occ, c: Occ)
    requires a == Instance("background", 'B', 2, 11, ImplicitDeclaration)
    requires b == Instance("background", 'B', 5, 11, ImplicitDeclaration)
    requires c == Instance("background", 'B', 7, 11, ImplicitDeclaration)
    ensures Seqs.Map(o => Rename.EditOf(TestUri, "Example Identifier C", o), [a, b, c]) == RenameExpected()
  {
  }

  /**
   * unit.ts:362-501: with the cursor on the first (10), a middle (24) or the
   * last (29) character of the background B on line 5, the rename replaces the
   * three backgrounds B with the trimmed name and leaves the character B alone.
   */
  lemma RenameOnBackgroundB(text: string, character: int, identifierIsValid: string -> bool)
    requires 10 <= character <= 29
    requires identifierIsValid("Example Identifier C")
    ensures Rename.RenameEdits(text, TestUri, Position(4, character), " \n \r \t Example Identifier C \n \r \t ",
                               ParsesTo(RenameDocument), identifierIsValid)
      == Some(RenameExpected())
  {
    TrimmedNewName();
    RenameCursorOnBackgroundB(RenameDocument, character);
    BackgroundBShape(RenameDocument);
    RenameOnBackgroundBOf(RenameDocument, text, character, " \n \r \t Example Identifier C \n \r \t ", identifierIsValid);
  }

  lemma RenameOnBackgroundBOf(d: seq<Occ>, text: string, character: int, newName: string, identifierIsValid: string -> bool)
    requires BackgroundBFacts(d) && Locate(d, Position(4, character)) == Some(d[5])
    requires Text.Trim(newName) == "Example Identifier C" && identifierIsValid("Example Identifier C")
    ensures Rename.RenameEdits(text, TestUri, Position(4, character), newName, ParsesTo(d), identifierIsValid)
      == Some(RenameExpected())
  {
    BackgroundBGroup(d);
    assert ParsesTo(d)(text) == Valid(d);
    EditsOfBackgroundB(d[1], d[5], d[7]);
  }

  /** Neither rename request answers for a cursor that touches nothing. */
  lemma RenameNowhere(d: seq<Occ>, text: string, pos: Position, newName: string, identifierIsValid: string -> bool)
    requires Locate(d, pos).None?
    ensures Rename.RenameEdits(text, TestUri, pos, newName, ParsesTo(d), identifierIsValid).None?
    ensures Rename.PrepareRename(text, pos, ParsesTo(d)).None?
  {
    assert ParsesTo(d)(text) == Valid(d);
  }

  /**
   * unit.ts:308-360 and 560-614: one character before or one after the span,
   * neither request answers.
   */
  lemma RenameJustOutsideIdentifier(text: string, newName: string, identifierIsValid: string -> bool)
    ensures Rename.RenameEdits(text, TestUri, Position(4, 9), newName, ParsesTo(RenameDocument), identifierIsValid).None?
    ensures Rename.RenameEdits(text, TestUri, Position(4, 30), newName, ParsesTo(RenameDocument), identifierIsValid).None?
    ensures Rename.PrepareRename(text, Position(4, 9), ParsesTo(RenameDocument)).None?
    ensures Rename.PrepareRename(text, Position(4, 30), ParsesTo(RenameDocument)).None?
  {
    RenameCursorBefore(RenameDocument);
    RenameCursorAfter(RenameDocument);
    RenameNowhere(RenameDocument, text, Position(4, 9), newName, identifierIsValid);
    RenameNowhere(RenameDocument, text, Position(4, 30), newName, identifierIsValid);
  }

  /** unit.ts:281-306 and 532-558: a document that does not parse gets no answer. */
  lemma RenameUnparsable(text: string, pos: Position, newName: string, identifierIsValid: string -> bool)
    ensures Rename.RenameEdits(text, TestUri, pos, newName, _ => Invalid, identifierIsValid).None?
    ensures Rename.PrepareRename(text, pos, _ => Invalid).None?
  {
  }

  /** unit.ts:503-528: an invalid new name gets no answer, even on an identifier. */
  lemma RenameInvalidName(text: string, newName: string, identifierIsValid: string -> bool)
    requires !identifierIsValid(Text.Trim(newName))
    ensures Rename.RenameEdits(text, TestUri, Position(4, 24), newName, ParsesTo(RenameDocument), identifierIsValid).None?
  {
  }

  /**
   * unit.ts:616-709: with the cursor on the first, a middle or the last
   * character of the background B on line 5, `prepareRename` offers its span
   * and its verbatim text.
   */
  lemma PrepareOnBackgroundB(text: string, character: int)
    requires 10 <= character <= 29
    ensures Rename.PrepareRename(text, Position(4, character), ParsesTo(RenameDocument))
      == Some(Rename.RenamePlaceholder(Range(Position(4, 10), Position(4, 30)), "Example Identifier B"))
  {
    RenameCursorOnBackgroundB(RenameDocument, character);
    BackgroundBShape(RenameDocument);
    PrepareOnBackgroundBOf(RenameDocument, text, character);
  }

  lemma PrepareOnBackgroundBOf(d: seq<Occ>, text: string, character: int)
    requires BackgroundBFacts(d) && Locate(d, Position(4, character)) == Some(d[5])
    ensures Rename.PrepareRename(text, Position(4, character), ParsesTo(d))
      == Some(Rename.RenamePlaceholder(Range(Position(4, 10), Position(4, 30)), "Example Identifier B"))
  {
    assert ParsesTo(d)(text) == Valid(d);
    assert d[5].verbatim == "Example Identifier B";
    assert ToRange(d[5]) == Range(Position(4, 10), Position(4, 30));
  }

  // ----- References (unit.ts:711-1622) -----

  /**
   * The ten-line reference document of unit.ts:840-849: characters and emotes
   * A and B on the `... is ...` lines, labels A and B declared by `~ ... ~`
   * and referenced by `Jump to ...`.
   */
  const ReferenceDocument: seq<Occ> := [
    Instance("character", 'A', 1, 1, ImplicitDeclaration),
    Instance("emote", 'B', 1, 25, ImplicitDeclaration),
    Instance("label", 'B', 2, 3, Declaration),
    Instance("character", 'B', 3, 1, ImplicitDeclaration),
    Instance("emote", 'A', 3, 25, ImplicitDeclaration),
    Instance("label", 'A', 4, 9, Reference),
    Instance("character", 'A', 5, 1, ImplicitDeclaration),
    Instance("emote", 'B', 5, 25, ImplicitDeclaration),
    Instance("label", 'A', 6, 3, Declaration),
    Instance("character", 'B', 7, 1, ImplicitDeclaration),
    Instance("emote", 'A', 7, 25, ImplicitDeclaration),
    Instance("label", 'B', 8, 9, Reference),
    Instance("label", 'A', 9, 9, Reference),
    Instance("character", 'A', 10, 1, ImplicitDeclaration),
    Instance("emote", 'B', 10, 25, ImplicitDeclaration)
  ]

  /** The cursor on the first character of line 6 touches the declaration of label A. */
  lemma CursorOnLabelDeclaration(d: seq<Occ>)
    requires d == ReferenceDocument
    ensures Locate(d, Position(5, 2)) == Some(d[8])
  {
    forall i | 0 <= i < 8
      ensures !Touches(d[i], Position(5, 2))
    {
    }
    LocateFindsFirst(d, Position(5, 2), 8);
  }

  /** The cursor on the first character of the emote A on line 3 touches it. */
  lemma CursorOnImplicitDeclaration(d: seq<Occ>)
    requires d == ReferenceDocument
    ensures Locate(d, Position(2, 24)) == Some(d[4])
  {
    forall i | 0 <= i < 4
      ensures !Touches(d[i], Position(2, 24))
    {
    }
    LocateFindsFirst(d, Position(2, 24), 4);
  }

  /** The instances of the reference document that share the identity of the label A. */
  predicate LabelAFacts(d: seq<Occ>)
  {
    && |d| == 15
    && d[5] == Instance("label", 'A', 4, 9, Reference)
    && d[8] == Instance("label", 'A', 6, 3, Declaration)
    && d[12] == Instance("label", 'A', 9, 9, Reference)
    && SameIdentifier(d[5], d[8])
    && SameIdentifier(d[12], d[8])
    && !SameIdentifier(d[0], d[8]) && !SameIdentifier(d[1], d[8]) && !SameIdentifier(d[2], d[8]) && !SameIdentifier(d[3], d[8])
    && !SameIdentifier(d[4], d[8]) && !SameIdentifier(d[6], d[8]) && !SameIdentifier(d[7], d[8]) && !SameIdentifier(d[9], d[8])
    && !SameIdentifier(d[10], d[8]) && !SameIdentifier(d[11], d[8]) && !SameIdentifier(d[13], d[8]) && !SameIdentifier(d[14], d[8])
  }

  lemma LabelAShape(d: seq<Occ>)
    requires d == ReferenceDocument
    ensures LabelAFacts(d)
  {
  }

  lemma LabelAGroupTail(d: seq<Occ>)
    requires LabelAFacts(d)
    ensures Group(d[7..], d[8]) == [d[8], d[12]]
  {
    assert d[15..] == [];
    GroupStep(d, 14, d[8]);
    assert Group(d[14..], d[8]) == [];
    GroupStep(d, 13, d[8]);
    assert Group(d[13..], d[8]) == [];
    GroupStep(d, 12, d[8]);
    assert Group(d[12..], d[8]) == [d[12]];
    GroupStep(d, 11, d[8]);
    assert Group(d[11..], d[8]) == [d[12]];
    GroupStep(d, 10, d[8]);
    assert Group(d[10..], d[8]) == [d[12]];
    GroupStep(d, 9, d[8]);
    assert Group(d[9..], d[8]) == [d[12]];
    GroupStep(d, 8, d[8]);
    assert Group(d[8..], d[8]) == [d[8], d[12]];
    GroupStep(d, 7, d[8]);
    assert Group(d[7..], d[8]) == [d[8], d[12]];
  }

  /** The group of the label A: lines 4, 6 and 9. */
  lemma LabelAGroup(d: seq<Occ>)
    requires LabelAFacts(d)
    ensures Group(d, d[8]) == [d[5], d[8], d[12]]
  {
    LabelAGroupTail(d);
    GroupStep(d, 6, d[8]);
    assert Group(d[6..], d[8]) == [d[8], d[12]];
    GroupStep(d, 5, d[8]);
    assert Group(d[5..], d[8]) == [d[5], d[8], d[12]];
    GroupStep(d, 4, d[8]);
    assert Group(d[4..], d[8]) == [d[5], d[8], d[12]];
    GroupStep(d, 3, d[8]);
    assert Group(d[3..], d[8]) == [d[5], d[8], d[12]];
    GroupStep(d, 2, d[8]);
    assert Group(d[2..], d[8]) == [d[5], d[8], d[12]];
    GroupStep(d, 1, d[8]);
    assert Group(d[1..], d[8]) == [d[5], d[8], d[12]];
    GroupStep(d, 0, d[8]);
    assert Group(d[0..], d[8]) == [d[5], d[8], d[12]];
    assert d[0..] == d;
  }

  /** The instances of the reference document that share the identity of the emote A. */
  predicate EmoteAFacts(d: seq<Occ>)
  {
    && |d| == 15
    && d[4] == Instance("emote", 'A', 3, 25, ImplicitDeclaration)
    && d[10] == Instance("emote", 'A', 7, 25, ImplicitDeclaration)
    && SameIdentifier(d[10], d[4])
    && !SameIdentifier(d[0], d[4]) && !SameIdentifier(d[1], d[4]) && !SameIdentifier(d[2], d[4]) && !SameIdentifier(d[3], d[4])
    && !SameIdentifier(d[5], d[4]) && !SameIdentifier(d[6], d[4]) && !SameIdentifier(d[7], d[4]) && !SameIdentifier(d[8], d[4])
    && !SameIdentifier(d[9], d[4]) && !SameIdentifier(d[11], d[4]) && !SameIdentifier(d[12], d[4]) && !SameIdentifier(d[13], d[4])
    && !SameIdentifier(d[14], d[4])
  }

  lemma EmoteAShape(d: seq<Occ>)
    requires d == ReferenceDocument
    ensures EmoteAFacts(d)
  {
  }

  lemma EmoteAGroupTail(d: seq<Occ>)
    requires EmoteAFacts(d)
    ensures Group(d[7..], d[4]) == [d[10]]
  {
    assert d[15..] == [];
    GroupStep(d, 14, d[4]);
    assert Group(d[14..], d[4]) == [];
    GroupStep(d, 13, d[4]);
    assert Group(d[13..], d[4]) == [];
    GroupStep(d, 12, d[4]);
    assert Group(d[12..], d[4]) == [];
    GroupStep(d, 11, d[4]);
    assert Group(d[11..], d[4]) == [];
    GroupStep(d, 10, d[4]);
    assert Group(d[10..], d[4]) == [d[10]];
    GroupStep(d, 9, d[4]);
    assert Group(d[9..], d[4]) == [d[10]];
    GroupStep(d, 8, d[4]);
    assert Group(d[8..], d[4]) == [d[10]];
    GroupStep(d, 7, d[4]);
    assert Group(d[7..], d[4]) == [d[10]];
  }

  /** The group of the emote A: lines 3 and 7. */
  lemma EmoteAGroup(d: seq<Occ>)
    requires EmoteAFacts(d)
    ensures Group(d, d[4]) == [d[4], d[10]]
  {
    EmoteAGroupTail(d);
    GroupStep(d, 6, d[4]);
    assert Group(d[6..], d[4]) == [d[10]];
    GroupStep(d, 5, d[4]);
    assert Group(d[5..], d[4]) == [d[10]];
    GroupStep(d, 4, d[4]);
    assert Group(d[4..], d[4]) == [d[4], d[10]];
    GroupStep(d, 3, d[4]);
    assert Group(d[3..], d[4]) == [d[4], d[10]];
    GroupStep(d, 2, d[4]);
    assert Group(d[2..], d[4]) == [d[4], d[10]];
    GroupStep(d, 1, d[4]);
    assert Group(d[1..], d[4]) == [d[4], d[10]];
    GroupStep(d, 0, d[4]);
    assert Group(d[0..], d[4]) == [d[4], d[10]];
    assert d[0..] == d;
  }

  /** The selection from the label A's group without declarations: its two references. */
  lemma LabelASelection(a: Occ, b: Occ, c: Occ)
    requires a.role == Reference && b.role == Declaration && c.role == Reference
    ensures References.Selection([a, b, c], false) == [a, c]
  {
    var g := [a, b, c];
    assert g[1..] == [b, c] && g[1..][1..] == [c] && [c][1..] == [];
    assert References.WithRole([c], ImplicitDeclaration) == [];
    assert References.WithRole([c], Reference) == [c];
    assert References.WithRole([b, c], ImplicitDeclaration) == [];
    assert References.WithRole([b, c], Reference) == [c];
    assert References.WithRole(g, ImplicitDeclaration) == [];
    assert References.WithRole(g, Reference) == [a, c];
  }

  /** The selections and locations for the label A's group. */
  lemma LabelALocations(a: Occ, b: Occ, c: Occ)
    requires a == Instance("label", 'A', 4, 9, Reference)
    requires b == Instance("label", 'A', 6, 3, Declaration)
    requires c == Instance("label", 'A', 9, 9, Reference)
    ensures Seqs.Map(o => ToLocation(TestUri, o), References.Selection([a, b, c], false))
      == [Loc(3, 8, 28), Loc(8, 8, 28)]
    ensures Seqs.Map(o => ToLocation(TestUri, o), References.Selection([a, b, c], true))
      == [Loc(3, 8, 28), Loc(5, 2, 22), Loc(8, 8, 28)]
  {
    LabelASelection(a, b, c);
  }

  /** The selections and locations for the emote A's group. */
  lemma EmoteALocations(a: Occ, b: Occ)
    requires a == Instance("emote", 'A', 3, 25, ImplicitDeclaration)
    requires b == Instance("emote", 'A', 7, 25, ImplicitDeclaration)
    ensures Seqs.Map(o => ToLocation(TestUri, o), References.Selection([a, b], false)) == [Loc(6, 24, 44)]
    ensures Seqs.Map(o => ToLocation(TestUri, o), References.Selection([a, b], true)) == [Loc(2, 24, 44), Loc(6, 24, 44)]
  {
    var g := [a, b];
    assert g[1..] == [b] && [b][1..] == [];
    assert References.WithRole([b], ImplicitDeclaration) == [b];
    assert References.WithRole([b], Reference) == [];
    assert References.WithRole(g, ImplicitDeclaration) == [a, b];
    assert References.WithRole(g, Reference) == [];
  }

  /**
   * unit.ts:836-872 and 1255-1295: on the declaration of label A, without
   * declarations the two `Jump to` references are found; with them the
   * declaration is listed too, in document order.
   */
  lemma ReferencesOnDeclaration(text: string)
    ensures References.ProvideReferences(text, TestUri, Position(5, 2), false, ParsesTo(ReferenceDocument))
      == Some([Loc(3, 8, 28), Loc(8, 8, 28)])
    ensures References.ProvideReferences(text, TestUri, Position(5, 2), true, ParsesTo(ReferenceDocument))
      == Some([Loc(3, 8, 28), Loc(5, 2, 22), Loc(8, 8, 28)])
  {
    CursorOnLabelDeclaration(ReferenceDocument);
    LabelAShape(ReferenceDocument);
    ReferencesOnDeclarationOf(ReferenceDocument, text);
  }

  lemma ReferencesOnDeclarationOf(d: seq<Occ>, text: string)
    requires LabelAFacts(d) && Locate(d, Position(5, 2)) == Some(d[8])
    ensures References.ProvideReferences(text, TestUri, Position(5, 2), false, ParsesTo(d))
      == Some([Loc(3, 8, 28), Loc(8, 8, 28)])
    ensures References.ProvideReferences(text, TestUri, Position(5, 2), true, ParsesTo(d))
      == Some([Loc(3, 8, 28), Loc(5, 2, 22), Loc(8, 8, 28)])
  {
    LabelAGroup(d);
    assert ParsesTo(d)(text) == Valid(d);
    LabelALocations(d[5], d[8], d[12]);
  }

  /**
   * unit.ts:1064-1096 and 1507-1543: on the first implicit declaration of
   * emote A, without declarations only the later implicit declaration is
   * found; with them both are.
   */
  lemma ReferencesOnImplicitDeclaration(text: string)
    ensures References.ProvideReferences(text, TestUri, Position(2, 24), false, ParsesTo(ReferenceDocument))
      == Some([Loc(6, 24, 44)])
    ensures References.ProvideReferences(text, TestUri, Position(2, 24), true, ParsesTo(ReferenceDocument))
      == Some([Loc(2, 24, 44), Loc(6, 24, 44)])
  {
    CursorOnImplicitDeclaration(ReferenceDocument);
    EmoteAShape(ReferenceDocument);
    ReferencesOnImplicitDeclarationOf(ReferenceDocument, text);
  }

  lemma ReferencesOnImplicitDeclarationOf(d: seq<Occ>, text: string)
    requires EmoteAFacts(d) && Locate(d, Position(2, 24)) == Some(d[4])
    ensures References.ProvideReferences(text, TestUri, Position(2, 24), false, ParsesTo(d))
      == Some([Loc(6, 24, 44)])
    ensures References.ProvideReferences(text, TestUri, Position(2, 24), true, ParsesTo(d))
      == Some([Loc(2, 24, 44), Loc(6, 24, 44)])
  {
    EmoteAGroup(d);
    assert ParsesTo(d)(text) == Valid(d);
    EmoteALocations(d[4], d[10]);
  }
}
