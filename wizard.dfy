/** The wizard and request state of `MedicationFoodApp` as a value, and each
    event handler as a function from the state before to the state after. */
module Wizard {
  import opened Optional
  import opened Text
  import opened CommaList
  import opened Payload

  /** The `step` state: the choice screen, the two forms and the result. */
  datatype Step = Choose | Under | Not | Result

  /** A JSON value received from the backend; it is stored and shown, never
      inspected, so its structure only has to be carried along. `Null` is
      also the `response` state's "nothing received" value, as `null` is in
      the component. */
  datatype Json =
    | Null
    | Bool(b: bool)
    | Number(literal: string)
    | Str(text: string)
    | Arr(items: seq<Json>)
    | Obj(members: seq<(string, Json)>)

  /** What `res.json()` makes of the response body. */
  datatype Body = Parsed(value: Json) | Unparseable(message: string)

  /** How the `fetch` of one request ends: a response with its HTTP status
      and body, or an exception raised before any response (the network
      failed), carrying its message. */
  datatype Outcome = Responded(status: nat, body: Body) | TransportFailed(message: string)

  /** `res.ok`: the status is in the range 200 to 299. */
  predicate IsOk(status: nat) {
    200 <= status <= 299
  }

  /** The request succeeds: an ok status and a body that parses. */
  predicate Succeeds(o: Outcome) {
    o.Responded? && IsOk(o.status) && o.body.Parsed?
  }

  /** The message of the exception `callBackend` catches when the request
      does not succeed: "HTTP <status>" for a status that is not ok (the body
      is then never read), otherwise the message of the failure itself. */
  function FailureMessage(o: Outcome): string
    requires !Succeeds(o)
  {
    match o
    case TransportFailed(m) => m
    case Responded(status, body) =>
      if !IsOk(status) then "HTTP " + Decimal(status) else body.message
  }

  /** `e.message || "Error calling backend"`: an empty message is replaced. */
  function ErrorText(message: string): (r: string)
    ensures r != ""
    ensures message != "" ==> r == message
  {
    if message == "" then "Error calling backend" else message
  }

  /** All state held by the component's `useState` hooks. */
  datatype State = State(
    step: Step,
    loading: bool,
    error: Option<string>,
    outbound: Option<Payload>,
    response: Json,
    medicines: string,
    foodsA: string,
    foodsB: string,
    cookingMethod: string)

  /** The four text inputs. */
  datatype Field = Medicines | FoodsA | FoodsB | CookingMethod

  /** The state on first render. */
  function Initial(): State {
    State(Choose, false, None, None, Null, "", "", "", "")
  }

  /** An input's `onChange`: the field takes the typed value. */
  function Edit(s: State, f: Field, v: string): State {
    match f
    case Medicines => s.(medicines := v)
    case FoodsA => s.(foodsA := v)
    case FoodsB => s.(foodsB := v)
    case CookingMethod => s.(cookingMethod := v)
  }

  /** The part of `callBackend` before its first `await`: loading on, the
      previous error and response cleared. */
  function Begin(s: State): State {
    s.(loading := true, error := None, response := Null)
  }

  /** `submitUnder`: record the payload as `outbound`, then start the call. */
  function SubmitUnder(s: State): State {
    Begin(s.(outbound := Some(BuildUnder(s.medicines, s.foodsA))))
  }

  /** `submitNot`: record the payload as `outbound`, then start the call. */
  function SubmitNot(s: State): State {
    Begin(s.(outbound := Some(BuildNot(s.foodsB, s.cookingMethod))))
  }

  /** The rest of `callBackend`, once `fetch` has ended with `o`: on success
      the response is stored and the result step shown, otherwise the error
      message is stored; either way loading ends. */
  function Settle(s: State, o: Outcome): State {
    if Succeeds(o) then
      s.(response := o.body.value, step := Result, loading := false)
    else
      s.(error := Some(ErrorText(FailureMessage(o))), loading := false)
  }

  /** What holds of every state the component can reach: while a request is
      in flight nothing from an earlier one is shown and the result step is
      not; an error comes with no response; whatever is shown belongs to a
      recorded request; the result step shows the answer of a request that
      succeeded, so no error. A `null` answer is stored as `Null`, the same
      value as "no response", exactly as the component's `null` is. */
  predicate Consistent(s: State) {
    && (s.loading ==> s.error.None? && s.response == Null && s.outbound.Some? && s.step != Result)
    && (s.error.Some? ==> s.response == Null)
    && (s.error.Some? || s.response != Null ==> s.outbound.Some?)
    && (s.step == Result ==> s.error.None? && s.outbound.Some?)
  }

  lemma InitialConsistent()
    ensures Consistent(Initial())
    ensures Initial().step == Choose && !Initial().loading
  {
  }

  /** Editing a field changes that field only and keeps the invariant. */
  lemma EditEffect(s: State, f: Field, v: string)
    requires Consistent(s)
    ensures var r := Edit(s, f, v);
      && Consistent(r)
      && r.(medicines := s.medicines, foodsA := s.foodsA, foodsB := s.foodsB,
            cookingMethod := s.cookingMethod) == s
      && (f == Medicines ==> r.medicines == v)
      && (f == FoodsA ==> r.foodsA == v)
      && (f == FoodsB ==> r.foodsB == v)
      && (f == CookingMethod ==> r.cookingMethod == v)
  {
  }

  /** `setStep(target)` from a navigation control: only the step changes. */
  function Goto(s: State, target: Step): State {
    s.(step := target)
  }

  /** Moving to any step other than the result step changes the step only
      and keeps the invariant. */
  lemma GotoConsistent(s: State, target: Step)
    requires Consistent(s)
    requires target != Result
    ensures Consistent(Goto(s, target))
    ensures Goto(s, target).step == target && Goto(s, target).(step := s.step) == s
  {
  }

  /** Recording a payload while idle keeps the invariant. */
  lemma RecordConsistent(s: State, p: Payload)
    requires Consistent(s) && !s.loading
    ensures Consistent(s.(outbound := Some(p)))
  {
  }

  /** Submitting from a form while idle records the payload built from that
      form's fields, starts the call and keeps the invariant; the text
      fields and the step are untouched. */
  lemma SubmitUnderEffect(s: State)
    requires Consistent(s) && s.step == Under && !s.loading
    ensures var r := SubmitUnder(s);
      && Consistent(r)
      && r.outbound == Some(BuildUnder(s.medicines, s.foodsA))
      && r.loading && r.error.None? && r.response == Null
      && r.step == s.step
      && r.(outbound := s.outbound, loading := s.loading, error := s.error, response := s.response) == s
  {
  }

  lemma SubmitNotEffect(s: State)
    requires Consistent(s) && s.step == Not && !s.loading
    ensures var r := SubmitNot(s);
      && Consistent(r)
      && r.outbound == Some(BuildNot(s.foodsB, s.cookingMethod))
      && r.loading && r.error.None? && r.response == Null
      && r.step == s.step
      && r.(outbound := s.outbound, loading := s.loading, error := s.error, response := s.response) == s
  {
  }

  /** How a request in flight settles: loading ends in every case; the step
      becomes Result exactly when the request succeeded, and otherwise stays
      where it was; on success the answer is stored and no error, otherwise
      the error and no response (a `null` answer is stored as `Null`, which
      the component cannot tell from no response either); the payload sent
      and the text fields are left as they were. */
  lemma SettleEffect(s: State, o: Outcome)
    requires Consistent(s) && s.loading
    ensures var r := Settle(s, o);
      && Consistent(r)
      && !r.loading
      && (r.step == Result <==> Succeeds(o))
      && (!Succeeds(o) ==> r.step == s.step)
      && (r.error.Some? <==> !Succeeds(o))
      && (Succeeds(o) ==> r.response == o.body.value)
      && (!Succeeds(o) ==> r.response == Null)
      && (!Succeeds(o) ==> r.error == Some(ErrorText(FailureMessage(o))))
      && r.outbound == s.outbound
      && r.(step := s.step, loading := s.loading, error := s.error, response := s.response) == s
  {
  }

  /** A whole request from the medication form: whatever the outcome, the
      payload built from the fields stays recorded and loading ends; the
      result step is reached exactly when the request succeeds, and
      otherwise the form stays on screen with the error. */
  lemma UnderRequestCycle(s: State, o: Outcome)
    requires Consistent(s) && s.step == Under && !s.loading
    ensures var r := Settle(SubmitUnder(s), o);
      && Consistent(r)
      && !r.loading
      && r.outbound == Some(BuildUnder(s.medicines, s.foodsA))
      && (Succeeds(o) ==> r.step == Result && r.response == o.body.value && r.error.None?)
      && (!Succeeds(o) ==> r.step == Under && r.response == Null && r.error == Some(ErrorText(FailureMessage(o))))
  {
    SubmitUnderEffect(s);
    SettleEffect(SubmitUnder(s), o);
  }

  /** The same for the other form. */
  lemma NotRequestCycle(s: State, o: Outcome)
    requires Consistent(s) && s.step == Not && !s.loading
    ensures var r := Settle(SubmitNot(s), o);
      && Consistent(r)
      && !r.loading
      && r.outbound == Some(BuildNot(s.foodsB, s.cookingMethod))
      && (Succeeds(o) ==> r.step == Result && r.response == o.body.value && r.error.None?)
      && (!Succeeds(o) ==> r.step == Not && r.response == Null && r.error == Some(ErrorText(FailureMessage(o))))
  {
    SubmitNotEffect(s);
    SettleEffect(SubmitNot(s), o);
  }

  /** A status that is not ok is reported as exactly "HTTP " followed by the
      status in decimal, from which the status can be read back; the body is
      not consulted. */
  lemma {:induction false} HttpErrorNamesStatus(s: State, status: nat, body: Body)
    requires !IsOk(status)
    ensures var r := Settle(s, Responded(status, body));
      && r.error == Some("HTTP " + Decimal(status))
      && |r.error.value| > 5
      && r.error.value[..5] == "HTTP "
      && DecimalValue(r.error.value[5..]) == status
      && r.step == s.step
  {
    var msg := "HTTP " + Decimal(status);
    assert ErrorText(msg) == msg;
    assert msg[5..] == Decimal(status);
    DecimalRoundTrip(status);
  }

  /** Status 500: the error reads "HTTP 500" and the form stays on screen. */
  lemma ServerErrorExample(s: State)
    requires s.step == Under
    ensures Settle(s, Responded(500, Parsed(Null))).error == Some("HTTP 500")
    ensures Settle(s, Responded(500, Parsed(Null))).step == Under
  {
    assert Decimal(5) == "5";
    assert Decimal(50) == "50";
    assert Decimal(500) == "500";
    assert "HTTP " + "500" == "HTTP 500";
  }

  /** The walk-through of a successful check: pick "Under Medication", type
      "warfarin" and "spinach, kale", submit, and the backend answers 200
      with {"safe": true}. The result step shows that answer, and the
      request recorded is {"choice": "a", "medicine": "warfarin", "foods":
      ["spinach", "kale"]}. */
  lemma UnderMedicationWalkThrough()
    ensures var answer := Obj([("safe", Bool(true))]);
      var s0 := Initial().(step := Under);
      var s1 := Edit(Edit(s0, Medicines, "warfarin"), FoodsA, "spinach, kale");
      var s2 := Settle(SubmitUnder(s1), Responded(200, Parsed(answer)));
      && s2.step == Result
      && s2.response == answer
      && s2.error.None? && !s2.loading
      && s2.outbound == Some(UnderMedication(One("warfarin"), ["spinach", "kale"]))
  {
    ParseWarfarin();
    ParseSpinachKale();
  }

  lemma ParseWarfarin()
    ensures ParseList("warfarin") == ["warfarin"]
  {
    ParseListToken("warfarin");
  }

  lemma ParseSpinachKale()
    ensures ParseList("spinach, kale") == ["spinach", "kale"]
  {
    assert "spinach" + ", " + "kale" == "spinach, kale";
    ParseListPair("spinach", "kale");
  }
}
