/** The two request shapes the form sends, how each submit handler builds
    one from the text fields, and the guards that enable the Submit buttons. */
module Payload {
  import opened Text
  import opened CommaList

  /** The `medicine` property, typed `string | string[]`: the list when more
      than one medicine was entered, the bare name when exactly one was, and
      `undefined` (what `meds[0]` gives on an empty array) when none was. */
  datatype Medicine = Many(names: seq<string>) | One(name: string) | Undefined

  /** `UnderMedicationPayload` (choice "a") and `NotUnderMedicationPayload`
      (choice "b"); each constructor carries exactly the object's properties
      besides `choice`. */
  datatype Payload =
    | UnderMedication(medicine: Medicine, foods: seq<string>)
    | NotUnderMedication(foodItems: seq<string>, cookingMethod: string)

  /** The `choice` discriminator of a payload. */
  function Choice(p: Payload): string {
    match p
    case UnderMedication(_, _) => "a"
    case NotUnderMedication(_, _) => "b"
  }

  /** The medicine names a `medicine` value stands for. */
  function MedicineNames(m: Medicine): seq<string> {
    match m
    case Many(names) => names
    case One(name) => [name]
    case Undefined => []
  }

  /** `meds.length > 1 ? meds : meds[0]`: the shape follows the number of
      names, and no name is lost or added. */
  function MedicineOf(meds: seq<string>): (r: Medicine)
    ensures MedicineNames(r) == meds
    ensures r.Many? <==> |meds| > 1
    ensures r.One? <==> |meds| == 1
    ensures r.Undefined? <==> meds == []
  {
    if |meds| > 1 then Many(meds) else if |meds| == 1 then One(meds[0]) else Undefined
  }

  /** The payload `submitUnder` builds from the two text fields. */
  function BuildUnder(medicines: string, foodsA: string): (r: Payload)
    ensures Choice(r) == "a"
    ensures r.UnderMedication?
    ensures r.medicine == MedicineOf(ParseList(medicines))
    ensures MedicineNames(r.medicine) == ParseList(medicines)
    ensures r.foods == ParseList(foodsA)
  {
    UnderMedication(MedicineOf(ParseList(medicines)), ParseList(foodsA))
  }

  /** The payload `submitNot` builds from the two text fields. */
  function BuildNot(foodsB: string, cookingMethod: string): (r: Payload)
    ensures Choice(r) == "b"
    ensures r.NotUnderMedication?
    ensures r.foodItems == ParseList(foodsB)
    ensures r.cookingMethod == Trim(cookingMethod)
  {
    NotUnderMedication(ParseList(foodsB), Trim(cookingMethod))
  }

  /** `canSubmitUnder`: both fields have something left after trimming. */
  predicate CanSubmitUnder(medicines: string, foodsA: string) {
    |Trim(medicines)| > 0 && |Trim(foodsA)| > 0
  }

  /** `canSubmitNot`: both fields have something left after trimming. */
  predicate CanSubmitNot(foodsB: string, cookingMethod: string) {
    |Trim(foodsB)| > 0 && |Trim(cookingMethod)| > 0
  }

  /** `canSubmitUnder` holds exactly when each field has a character that is
      not white space. */
  lemma CanSubmitUnderIff(medicines: string, foodsA: string)
    ensures CanSubmitUnder(medicines, foodsA) <==> HasNonSpace(medicines) && HasNonSpace(foodsA)
  {
    TrimEmptyIff(medicines);
    TrimEmptyIff(foodsA);
  }

  /** `canSubmitNot` holds exactly when each field has a character that is
      not white space. */
  lemma CanSubmitNotIff(foodsB: string, cookingMethod: string)
    ensures CanSubmitNot(foodsB, cookingMethod) <==> HasNonSpace(foodsB) && HasNonSpace(cookingMethod)
  {
    TrimEmptyIff(foodsB);
    TrimEmptyIff(cookingMethod);
  }

  /** A field that parses to at least one entry passes its half of a guard. */
  lemma EntriesPassGuard(s: string)
    requires ParseList(s) != []
    ensures |Trim(s)| > 0
  {
    ParseListEmptyIff(s);
    TrimEmptyIff(s);
    var i :| 0 <= i < |s| && !IsSpace(s[i]) && s[i] != ',';
    assert !IsSpace(s[i]);
  }

  /** Every name and food in a built payload is a proper entry (non-empty,
      trimmed, comma-free), and the cooking method is trimmed. */
  predicate WellFormed(p: Payload) {
    match p
    case UnderMedication(m, foods) =>
      (forall i :: 0 <= i < |MedicineNames(m)| ==> IsToken(MedicineNames(m)[i])) &&
      (forall i :: 0 <= i < |foods| ==> IsToken(foods[i]))
    case NotUnderMedication(items, how) =>
      (forall i :: 0 <= i < |items| ==> IsToken(items[i])) && Trim(how) == how
  }

  lemma BuildUnderWellFormed(medicines: string, foodsA: string)
    ensures WellFormed(BuildUnder(medicines, foodsA))
  {
    ParseListTokens(medicines);
    ParseListTokens(foodsA);
  }

  lemma BuildNotWellFormed(foodsB: string, cookingMethod: string)
    ensures WellFormed(BuildNot(foodsB, cookingMethod))
  {
    ParseListTokens(foodsB);
    TrimIdempotent(cookingMethod);
  }

  /** One medicine is sent as a bare name. */
  lemma OneMedicineExample()
    ensures BuildUnder("aspirin", "rice").medicine == One("aspirin")
  {
    ParseListToken("aspirin");
  }

  /** Two medicines are sent as a list, in the order typed. */
  lemma TwoMedicinesExample()
    ensures BuildUnder("aspirin, ibuprofen", "rice").medicine == Many(["aspirin", "ibuprofen"])
  {
    assert "aspirin" + ", " + "ibuprofen" == "aspirin, ibuprofen";
    ParseListPair("aspirin", "ibuprofen");
  }

  lemma CommaParsesToNothing()
    ensures ParseList(",") == []
  {
    calc {
      ParseList(",");
      { assert "" + "," + "" == ","; }
      ParseList("" + "," + "");
      { ParseListAppend("", ""); }
      ParseList("") + ParseList("");
      { ParseListSegment(""); }
      [];
    }
  }

  /** The guard does not ensure an entry: "," passes `canSubmitUnder`, and
      the payload then carries an undefined `medicine`. */
  lemma CommaOnlyMedicine()
    ensures CanSubmitUnder(",", "rice")
    ensures BuildUnder(",", "rice").medicine == Undefined
  {
    TrimmedIsFixed(",");
    TrimmedIsFixed("rice");
    CommaParsesToNothing();
  }

  /** Likewise "," passes `canSubmitNot` and sends no food item. */
  lemma CommaOnlyFoodItems()
    ensures CanSubmitNot(",", "boiled")
    ensures BuildNot(",", "boiled").foodItems == []
  {
    TrimmedIsFixed(",");
    TrimmedIsFixed("boiled");
    CommaParsesToNothing();
  }
}
