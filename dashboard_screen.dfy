/** The decision rules of the dashboard screen: what tapping a vehicle card
    does, the prices shown in the start-session dialog, and when its confirm
    button is enabled. */
module DashboardScreen {
  import opened Common
  import opened Dashboard

  /** What a tap on a vehicle card asks of the view-model. */
  datatype CardAction = NoAction | OpenForm(index: int) | RefetchStatus(index: int)

  /** The `enabled` condition of the card's `clickable` modifier. */
  predicate IsClickable(status: VehicleStatus) {
    status == Idle || status == Running || status == Disconnected
  }

  /** A tap on the card at `index`: nothing unless the card is enabled, then
      the `when` on its status. The `when`'s empty branch is exactly the
      disabled cards: a tap acts iff the card is enabled, an idle card opens
      the form and a running or disconnected one is fetched again. */
  function OnCardClick(status: VehicleStatus, index: int): (action: CardAction)
    ensures action != NoAction <==> IsClickable(status)
    ensures action == OpenForm(index) <==> status == Idle
    ensures action == RefetchStatus(index) <==> status == Running || status == Disconnected
  {
    if !IsClickable(status) then NoAction
    else
      match status
      case Fresh | Fetching => NoAction
      case Idle => OpenForm(index)
      case Running | Disconnected => RefetchStatus(index)
  }

  /** The per-ticket price the open dialog shows for the form's entry. The
      dialog is composed only while the form is open, and its saved `price`
      starts at 0 each time; the keyed effect then sets the entry's price. */
  function DialogPrice(entries: seq<VehicleEntry>, formIndex: int, effectRan: bool): Long
    requires 0 <= formIndex < |entries|
  {
    if effectRan then entries[formIndex].vehicle.price else 0
  }

  /** The total shown for one ticket. */
  function OneTicketTotal(price: Long): Long {
    price
  }

  /** The total shown for two tickets, `2 * price` in `Long` arithmetic. */
  function TwoTicketTotal(price: Long): (total: Long)
    ensures MinLong <= 2 * price <= MaxLong ==> total == 2 * price
    ensures 2 * price > MaxLong ==> total == 2 * price - LongModulus && total < 0
    ensures 2 * price < MinLong ==> total == 2 * price + LongModulus && total >= 0
  {
    WrapLong(2 * price)
  }

  /** On the first frame of an opening both totals read 0. Once the effect
      has run, the dialog offers the entry's own price for one ticket and
      twice it for two, as long as twice the price is a `Long`. */
  lemma DialogTotals(entries: seq<VehicleEntry>, formIndex: int)
    requires 0 <= formIndex < |entries|
    ensures OneTicketTotal(DialogPrice(entries, formIndex, false)) == 0
    ensures TwoTicketTotal(DialogPrice(entries, formIndex, false)) == 0
    ensures OneTicketTotal(DialogPrice(entries, formIndex, true)) == entries[formIndex].vehicle.price
    ensures 2 * entries[formIndex].vehicle.price <= MaxLong && 2 * entries[formIndex].vehicle.price >= MinLong ==>
      TwoTicketTotal(DialogPrice(entries, formIndex, true)) == 2 * entries[formIndex].vehicle.price
  {
  }

  /** The `enabled` condition of the confirm button. */
  predicate ConfirmEnabled(isSubmitting: bool) {
    !isSubmitting
  }

  /** A tap on the card at `index`, dispatched to the view-model. */
  method TapCard(vm: DashboardViewModel, index: int)
    requires vm.Valid() && 0 <= index < |vm.entries|
    modifies vm`entries, vm`form
    ensures vm.Valid()
    ensures old(vm.entries[index].status) == Idle && old(vm.form.index) == -1 ==>
      vm.form == StartSessionForm(index, vm.defaultTickets) && vm.entries == old(vm.entries)
    ensures old(vm.entries[index].status) == Idle && old(vm.form.index) != -1 ==>
      vm.form == old(vm.form) && vm.entries == old(vm.entries)
    ensures old(vm.entries[index].status) == Running || old(vm.entries[index].status) == Disconnected ==>
      vm.entries == old(vm.entries)[index := old(vm.entries[index]).(status := Fetching)] && vm.form == old(vm.form)
    ensures old(vm.entries[index].status) == Fresh || old(vm.entries[index].status) == Fetching ==>
      vm.entries == old(vm.entries) && vm.form == old(vm.form)
    ensures vm.isSubmitting == old(vm.isSubmitting) && vm.initializationStatus == old(vm.initializationStatus)
  {
    match OnCardClick(vm.entries[index].status, index) {
      case NoAction =>
      case OpenForm(i) =>
        vm.OpenStartSessionForm(i);
      case RefetchStatus(i) =>
        var started := vm.FetchStatus(i);
    }
  }

  /** A tap on the confirm button, which is disabled while a submission is
      in flight. `submitted` is the form a request is launched for. */
  method TapConfirm(vm: DashboardViewModel) returns (submitted: Option<StartSessionForm>)
    requires vm.Valid()
    modifies vm`isSubmitting
    ensures vm.Valid()
    ensures submitted.Some? <==> old(vm.form.index) != -1 && !old(vm.isSubmitting)
    ensures submitted.Some? ==> submitted.value == old(vm.form)
    ensures vm.isSubmitting == (old(vm.isSubmitting) || submitted.Some?)
    ensures vm.entries == old(vm.entries) && vm.form == old(vm.form)
    ensures vm.initializationStatus == old(vm.initializationStatus)
  {
    submitted := None;
    if ConfirmEnabled(vm.isSubmitting) {
      submitted := vm.SubmitStartSessionForm();
    }
  }

  /** One vehicle from start-up to a started ride, driven through the screen. */
  method StartRideScenario(d: Vehicles.VehicleDocument)
    requires Vehicles.IsComplete(d)
  {
    var vm := new DashboardViewModel(1);
    Vehicles.AllVehiclesOfOne(d);
    vm.Initialize(Some([d]), map[]);
    assert |vm.entries| == 1 && vm.entries[0].status == Fetching;
    vm.CompleteFetchStatus(0, Body("idle"));
    assert vm.entries[0].status == Idle;
    TapCard(vm, 0);
    assert vm.form == StartSessionForm(0, 1);
    vm.ChooseNumberOfTickets(3);
    vm.ChooseNumberOfTickets(2);
    var submitted := TapConfirm(vm);
    assert submitted == Some(StartSessionForm(0, 2));
    var again := TapConfirm(vm);
    assert again.None?;
    vm.CompleteSubmitStartSessionForm(0, Vehicles.StartSessionResult.Successful);
    assert vm.entries[0].status == Running && !vm.IsStartSessionFormOpen();
    TapCard(vm, 0);
    assert vm.entries[0].status == Fetching;
  }
}
