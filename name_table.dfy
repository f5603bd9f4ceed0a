/**
 * `update_font_names`, which `main.py` and `scripts/variable_to_static_font_converter.py`
 * define identically: the family, unique-identifier, full and PostScript name records
 * of a new static instance get the weight label. Records are taken as already decoded
 * text; the re-encoding with the record's own encoding is not modelled.
 */
module NameTable {
  import opened PyStr

  /** One record of the `name` table: its name ID and its decoded string. */
  datatype NameRecord = NameRecord(nameID: int, text: string)

  const FamilyName := 1
  const UniqueIdentifier := 3
  const FullName := 4
  const PostScriptName := 6

  /** Name IDs 1, 3 and 4 take the weight after a space. */
  predicate IsSpaceJoined(id: int) { id == FamilyName || id == UniqueIdentifier || id == FullName }

  /** The record as the loop body leaves it. */
  function Renamed(r: NameRecord, weight: string): NameRecord
  {
    if IsSpaceJoined(r.nameID) then r.(text := r.text + " " + weight)
    else if r.nameID == PostScriptName then r.(text := RemoveSpaces(r.text) + "-" + weight)
    else r
  }

  /**
   * The loop over `font["name"].names`, assigning `name.string` in place: every record
   * keeps its name ID and position; 1, 3 and 4 get `" " + weight`, 6 loses its spaces
   * and gets `"-" + weight`, every other record is left as it was.
   */
  method UpdateFontNames(names: array<NameRecord>, weight: string)
    modifies names
    ensures forall i :: 0 <= i < names.Length ==> names[i].nameID == old(names[i].nameID)
    ensures forall i :: 0 <= i < names.Length && IsSpaceJoined(old(names[i].nameID)) ==>
      names[i].text == old(names[i].text) + " " + weight
    ensures forall i :: 0 <= i < names.Length && old(names[i].nameID) == PostScriptName ==>
      names[i].text == RemoveSpaces(old(names[i].text)) + "-" + weight
    ensures forall i :: 0 <= i < names.Length && !IsSpaceJoined(old(names[i].nameID)) && old(names[i].nameID) != PostScriptName ==>
      names[i] == old(names[i])
    ensures names[..] == RenamedAll(old(names[..]), weight)
  {
    for i := 0 to names.Length
      invariant forall j :: 0 <= j < i ==> names[j] == Renamed(old(names[j]), weight)
      invariant forall j :: i <= j < names.Length ==> names[j] == old(names[j])
    {
      var name := names[i];
      if name.nameID == FamilyName || name.nameID == UniqueIdentifier || name.nameID == FullName || name.nameID == PostScriptName {
        var current := name.text;
        var updated := if IsSpaceJoined(name.nameID) then current + " " + weight else RemoveSpaces(current) + "-" + weight;
        names[i] := name.(text := updated);
      }
    }
  }

  /** The whole table after the loop, as a value. */
  function RenamedAll(records: seq<NameRecord>, weight: string): (r: seq<NameRecord>)
    ensures |r| == |records|
    ensures forall i :: 0 <= i < |r| ==> r[i] == Renamed(records[i], weight)
  {
    seq(|records|, i requires 0 <= i < |records| => Renamed(records[i], weight))
  }

  /** A renamed PostScript name has no space in it when the weight label has none. */
  lemma PostScriptNameHasNoSpaces(r: NameRecord, weight: string)
    requires r.nameID == PostScriptName && ' ' !in weight
    ensures ' ' !in Renamed(r, weight).text
  {
    var base := RemoveSpaces(r.text);
    RemoveSpacesFacts(r.text);
    assert Renamed(r, weight).text == base + "-" + weight;
  }

  /** The renamed text ends in the weight label, after a space or a hyphen. */
  lemma {:induction false} RenamedEndsWithWeight(r: NameRecord, weight: string)
    requires IsSpaceJoined(r.nameID) || r.nameID == PostScriptName
    ensures EndsWith(Renamed(r, weight).text, (if r.nameID == PostScriptName then "-" else " ") + weight)
  {
    var sep := if r.nameID == PostScriptName then "-" else " ";
    var base := if r.nameID == PostScriptName then RemoveSpaces(r.text) else r.text;
    var t := Renamed(r, weight).text;
    assert t == base + (sep + weight);
    assert t[|t| - |sep + weight|..] == sep + weight;
  }

  /** Renaming keeps the number and order of records and every record's name ID. */
  lemma RenamingKeepsIDs(records: seq<NameRecord>, weight: string, i: nat)
    requires i < |records|
    ensures |RenamedAll(records, weight)| == |records|
    ensures RenamedAll(records, weight)[i].nameID == records[i].nameID
  {
  }

  /** `"Acme Sans"` and `"Bold"`: `"Acme Sans Bold"` for 1, 3 and 4, `"AcmeSans-Bold"` for 6. */
  lemma AcmeSansBold(family: string, weight: string)
    requires family == "Acme Sans" && weight == "Bold"
    ensures Renamed(NameRecord(FamilyName, family), weight).text == "Acme Sans Bold"
    ensures Renamed(NameRecord(FullName, family), weight).text == "Acme Sans Bold"
    ensures Renamed(NameRecord(PostScriptName, family), weight).text == "AcmeSans-Bold"
    ensures Renamed(NameRecord(2, family), weight) == NameRecord(2, family)
  {
    AcmeSansPacked(family);
    var spaced, packed := family + " " + weight, RemoveSpaces(family) + "-" + weight;
    assert spaced == "Acme Sans Bold";
    assert packed == "AcmeSans-Bold";
  }

  lemma AcmeSansPacked(family: string)
    requires family == "Acme Sans"
    ensures RemoveSpaces(family) == "AcmeSans"
  {
    var a, b := "Acme", "Sans";
    assert family == a + " " + b;
    ExtraSpaceIgnored(a, b);
    assert ' ' !in a + b;
    RemoveSpacesFacts(a + b);
  }
}
