/** The `MedicationFoodApp` component as an object: each `useState` hook is a
    field, each handler a method that updates the fields in place. The
    `Wizard` module gives, for each handler, the state it must produce. */
module App {
  import opened Optional
  import opened Payload
  import opened CommaList
  import Text
  import Wizard

  class MedicationFoodApp {
    var step: Wizard.Step
    var loading: bool
    var error: Option<string>
    var outbound: Option<Payload>
    var response: Wizard.Json
    var medicines: string
    var foodsA: string
    var foodsB: string
    var cookingMethod: string

    /** The fields as one value. */
    function Snapshot(): Wizard.State
      reads this
    {
      Wizard.State(step, loading, error, outbound, response, medicines, foodsA, foodsB, cookingMethod)
    }

    ghost predicate Valid()
      reads this
    {
      Wizard.Consistent(Snapshot())
    }

    /** First render: the choice screen, nothing loading, nothing recorded,
        every field empty. */
    constructor()
      ensures Snapshot() == Wizard.Initial()
      ensures Valid()
    {
      step := Wizard.Choose;
      loading := false;
      error := None;
      outbound := None;
      response := Wizard.Null;
      medicines := "";
      foodsA := "";
      foodsB := "";
      cookingMethod := "";
      Wizard.InitialConsistent();
    }

    /** An input's `onChange`: only the edited field changes. The medicine
        and food inputs of the medication form are shown on its step only,
        those of the other form on that form's step only. */
    method UpdateField(f: Wizard.Field, v: string)
      requires Valid()
      requires (f == Wizard.Medicines || f == Wizard.FoodsA) ==> step == Wizard.Under
      requires (f == Wizard.FoodsB || f == Wizard.CookingMethod) ==> step == Wizard.Not
      modifies this
      ensures Snapshot() == Wizard.Edit(old(Snapshot()), f, v)
      ensures Valid()
    {
      ghost var s := Snapshot();
      match f
      case Medicines => medicines := v;
      case FoodsA => foodsA := v;
      case FoodsB => foodsB := v;
      case CookingMethod => cookingMethod := v;
      Wizard.EditEffect(s, f, v);
    }

    /** The "Under Medication" tile on the choice screen. */
    method ChooseUnder()
      requires Valid() && step == Wizard.Choose
      modifies this
      ensures Snapshot() == Wizard.Goto(old(Snapshot()), Wizard.Under)
      ensures Valid()
    {
      ghost var s := Snapshot();
      step := Wizard.Under;
      Wizard.GotoConsistent(s, Wizard.Under);
    }

    /** The "Not Under Medication" tile on the choice screen. */
    method ChooseNot()
      requires Valid() && step == Wizard.Choose
      modifies this
      ensures Snapshot() == Wizard.Goto(old(Snapshot()), Wizard.Not)
      ensures Valid()
    {
      ghost var s := Snapshot();
      step := Wizard.Not;
      Wizard.GotoConsistent(s, Wizard.Not);
    }

    /** The back arrow, shown on every step but the choice screen, and the
        "New check" button on the result step: back to the choice screen,
        with everything else, the last request and response included, kept. */
    method BackToChoose()
      requires Valid() && step != Wizard.Choose
      modifies this
      ensures Snapshot() == Wizard.Goto(old(Snapshot()), Wizard.Choose)
      ensures Valid()
    {
      ghost var s := Snapshot();
      step := Wizard.Choose;
      Wizard.GotoConsistent(s, Wizard.Choose);
    }

    /** `setOutbound(payload)` while no request is in flight: only the
        recorded request changes. */
    method Record(payload: Payload)
      requires Valid() && !loading
      modifies this
      ensures Snapshot() == old(Snapshot()).(outbound := Some(payload))
      ensures Valid()
    {
      ghost var s := Snapshot();
      outbound := Some(payload);
      Wizard.RecordConsistent(s, payload);
    }

    /** `callBackend(payload)` up to its `await`: loading on, the previous
        error and response cleared. The payload it is handed, the one it
        sends, is the one just recorded as `outbound`. */
    method BeginCall(payload: Payload)
      requires Valid() && outbound == Some(payload) && step != Wizard.Result
      modifies this
      ensures Snapshot() == Wizard.Begin(old(Snapshot()))
      ensures outbound == Some(payload)
      ensures Valid()
    {
      loading := true;
      error := None;
      response := Wizard.Null;
    }

    /** `callBackend` after `fetch` ended with `o`, `finally` included. */
    method SettleCall(o: Wizard.Outcome)
      requires Valid() && loading
      modifies this
      ensures Snapshot() == Wizard.Settle(old(Snapshot()), o)
      ensures Valid()
    {
      ghost var s := Snapshot();
      if Wizard.Succeeds(o) {
        response := o.body.value;
        step := Wizard.Result;
      } else {
        error := Some(Wizard.ErrorText(Wizard.FailureMessage(o)));
      }
      loading := false;
      Wizard.SettleEffect(s, o);
    }

    /** `submitUnder`, from the enabled Submit button of the medication form:
        the payload built from the medicine and food fields is recorded and
        the call is started. */
    method SubmitUnder() returns (sent: Payload)
      requires Valid() && step == Wizard.Under && !loading
      modifies this
      ensures sent == BuildUnder(old(medicines), old(foodsA)) && outbound == Some(sent)
      ensures Snapshot() == Wizard.SubmitUnder(old(Snapshot()))
      ensures Valid()
    {
      ghost var s := Snapshot();
      var meds := ParseList(medicines);
      var foods := ParseList(foodsA);
      var payload := UnderMedication(MedicineOf(meds), foods);
      assert payload == BuildUnder(medicines, foodsA);
      Record(payload);
      BeginCall(payload);
      sent := payload;
      Wizard.SubmitUnderEffect(s);
    }

    /** `submitNot`, from the enabled Submit button of the other form. */
    method SubmitNot() returns (sent: Payload)
      requires Valid() && step == Wizard.Not && !loading
      modifies this
      ensures sent == BuildNot(old(foodsB), old(cookingMethod)) && outbound == Some(sent)
      ensures Snapshot() == Wizard.SubmitNot(old(Snapshot()))
      ensures Valid()
    {
      ghost var s := Snapshot();
      var foodItems := ParseList(foodsB);
      var payload := NotUnderMedication(foodItems, Text.Trim(cookingMethod));
      assert payload == BuildNot(foodsB, cookingMethod);
      Record(payload);
      BeginCall(payload);
      sent := payload;
      Wizard.SubmitNotEffect(s);
    }
  }
}
