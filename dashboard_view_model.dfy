/** The dashboard's view-model: one entry per vehicle with its status and
    image, the start-session form, and the initialization status. Each
    coroutine the view-model launches is split into a start step (its guard
    and synchronous writes) and a completion step that takes the outcome of
    its I/O as a parameter. */
module Dashboard {
  import opened Common
  import opened Vehicles
  import opened Images

  datatype VehicleStatus = Fresh | Fetching | Idle | Running | Disconnected

  datatype VehicleEntry = VehicleEntry(vehicle: Vehicle, status: VehicleStatus, image: Option<Bitmap>)

  datatype InitializationStatus = Uninitialized | Successful | Failed

  /** The start-session form; `index` is -1 while the form is closed. */
  datatype StartSessionForm = StartSessionForm(index: int, numberOfTickets: Long)

  /** Kotlin's `String.compareTo(b) <= 0`: lexicographic by character, a
      proper prefix before its extensions. */
  predicate NameLeq(a: string, b: string) {
    a == [] || (b != [] && (a[0] < b[0] || (a[0] == b[0] && NameLeq(a[1..], b[1..]))))
  }

  lemma {:induction false} NameLeqTotal(a: string, b: string)
    ensures NameLeq(a, b) || NameLeq(b, a)
  {
    if a != [] && b != [] && a[0] == b[0] {
      NameLeqTotal(a[1..], b[1..]);
    }
  }

  lemma {:induction false} NameLeqTransitive(a: string, b: string, c: string)
    requires NameLeq(a, b) && NameLeq(b, c)
    ensures NameLeq(a, c)
  {
    if a != [] && b != [] && c != [] && a[0] == b[0] == c[0] {
      NameLeqTransitive(a[1..], b[1..], c[1..]);
    }
  }

  predicate SortedByName(s: seq<VehicleEntry>) {
    forall i, j :: 0 <= i < j < |s| ==> NameLeq(s[i].vehicle.name, s[j].vehicle.name)
  }

  /** An entry whose name is at most every name of a sorted list can lead it. */
  lemma ConsSorted(h: VehicleEntry, rest: seq<VehicleEntry>)
    requires SortedByName(rest)
    requires forall x :: x in rest ==> NameLeq(h.vehicle.name, x.vehicle.name)
    ensures SortedByName([h] + rest)
  {
    var r := [h] + rest;
    forall i, j | 0 <= i < j < |r|
      ensures NameLeq(r[i].vehicle.name, r[j].vehicle.name)
    {
      assert r[j] == rest[j - 1];
      if i > 0 {
        assert r[i] == rest[i - 1];
      }
    }
  }

  /** Inserts `e` before the first entry whose name is not smaller. */
  function InsertByName(e: VehicleEntry, s: seq<VehicleEntry>): (r: seq<VehicleEntry>)
    requires SortedByName(s)
    ensures SortedByName(r)
    ensures multiset(r) == multiset(s) + multiset{e}
  {
    if s == [] then [e]
    else if NameLeq(e.vehicle.name, s[0].vehicle.name) then
      assert forall x :: x in s ==> NameLeq(e.vehicle.name, x.vehicle.name) by {
        forall x | x in s ensures NameLeq(e.vehicle.name, x.vehicle.name) {
          var j :| 0 <= j < |s| && s[j] == x;
          if j > 0 { NameLeqTransitive(e.vehicle.name, s[0].vehicle.name, s[j].vehicle.name); }
        }
      }
      ConsSorted(e, s);
      [e] + s
    else
      var rest := InsertByName(e, s[1..]);
      assert forall x :: x in rest ==> NameLeq(s[0].vehicle.name, x.vehicle.name) by {
        forall x | x in rest ensures NameLeq(s[0].vehicle.name, x.vehicle.name) {
          assert x in multiset(rest);
          if x != e {
            assert x in multiset(s[1..]);
            var j :| 0 <= j < |s[1..]| && s[1..][j] == x;
            assert s[j + 1] == x;
          } else {
            NameLeqTotal(e.vehicle.name, s[0].vehicle.name);
          }
        }
      }
      ConsSorted(s[0], rest);
      assert s == [s[0]] + s[1..];
      [s[0]] + rest
  }

  /** `sortedBy { it.vehicle.name }`. */
  function SortByName(s: seq<VehicleEntry>): (r: seq<VehicleEntry>)
    ensures SortedByName(r)
    ensures multiset(r) == multiset(s)
  {
    if s == [] then []
    else
      assert s == [s[0]] + s[1..];
      InsertByName(s[0], SortByName(s[1..]))
  }

  /** The entries of `s` whose vehicle is called `name`, in their order. */
  function NamedEntries(s: seq<VehicleEntry>, name: string): seq<VehicleEntry> {
    if s == [] then []
    else NamedPart(s[0], name) + NamedEntries(s[1..], name)
  }

  lemma {:induction false} NameLeqReflexive(a: string)
    ensures NameLeq(a, a)
  {
    NameLeqTotal(a, a);
  }

  function NamedPart(x: VehicleEntry, name: string): seq<VehicleEntry> {
    if x.vehicle.name == name then [x] else []
  }

  lemma NamedEntriesCons(x: VehicleEntry, t: seq<VehicleEntry>, name: string)
    ensures NamedEntries([x] + t, name) == NamedPart(x, name) + NamedEntries(t, name)
  {
    assert ([x] + t)[1..] == t;
  }

  /** Entries of different names are never both picked for one name; `e`
      after `x` has a strictly greater name than `x`. */
  lemma {:induction false} AtMostOneNamed(e: VehicleEntry, x: VehicleEntry, name: string)
    requires !NameLeq(e.vehicle.name, x.vehicle.name)
    ensures NamedPart(x, name) == [] || NamedPart(e, name) == []
  {
    NameLeqReflexive(e.vehicle.name);
  }

  lemma SwapEmptyPart(a: seq<VehicleEntry>, b: seq<VehicleEntry>, t: seq<VehicleEntry>)
    requires a == [] || b == []
    ensures a + (b + t) == b + (a + t)
  {
  }

  lemma InsertByNameAfterHead(e: VehicleEntry, s: seq<VehicleEntry>)
    requires SortedByName(s) && s != [] && !NameLeq(e.vehicle.name, s[0].vehicle.name)
    ensures SortedByName(s[1..])
    ensures InsertByName(e, s) == [s[0]] + InsertByName(e, s[1..])
  {
  }

  /** The step of `InsertByNameNamed` where `e` goes after the head. */
  lemma InsertAfterHeadNamed(e: VehicleEntry, s: seq<VehicleEntry>, name: string)
    requires SortedByName(s) && s != [] && !NameLeq(e.vehicle.name, s[0].vehicle.name)
    requires NamedEntries(InsertByName(e, s[1..]), name) == NamedPart(e, name) + NamedEntries(s[1..], name)
    ensures NamedEntries(InsertByName(e, s), name) == NamedPart(e, name) + NamedEntries(s, name)
  {
    InsertByNameAfterHead(e, s);
    NamedEntriesCons(s[0], InsertByName(e, s[1..]), name);
    NamedEntriesCons(s[0], s[1..], name);
    assert s == [s[0]] + s[1..];
    AtMostOneNamed(e, s[0], name);
    SwapEmptyPart(NamedPart(s[0], name), NamedPart(e, name), NamedEntries(s[1..], name));
  }

  /** Insertion puts `e` before every entry of the same name. */
  lemma {:induction false} InsertByNameNamed(e: VehicleEntry, s: seq<VehicleEntry>, name: string)
    requires SortedByName(s)
    ensures NamedEntries(InsertByName(e, s), name) == NamedPart(e, name) + NamedEntries(s, name)
  {
    if s == [] {
      NamedEntriesCons(e, [], name);
    } else if NameLeq(e.vehicle.name, s[0].vehicle.name) {
      NamedEntriesCons(e, s, name);
    } else {
      InsertByNameNamed(e, s[1..], name);
      InsertAfterHeadNamed(e, s, name);
    }
  }

  /** `sortedBy` is stable: the entries of each name keep their input order. */
  lemma {:induction false} SortByNameStable(s: seq<VehicleEntry>, name: string)
    ensures NamedEntries(SortByName(s), name) == NamedEntries(s, name)
  {
    if s != [] {
      SortByNameStable(s[1..], name);
      InsertByNameNamed(s[0], SortByName(s[1..]), name);
    }
  }

  /** What `imageManager.get` returned for each vehicle id; an id absent
      from the map got null. */
  function ImageFor(images: map<string, Bitmap>, id: string): Option<Bitmap> {
    if id in images then Some(images[id]) else None
  }

  /** The entries built from freshly listed vehicles, before sorting. */
  function FreshEntries(vehicles: seq<Vehicle>, images: map<string, Bitmap>): seq<VehicleEntry> {
    seq(|vehicles|, i requires 0 <= i < |vehicles| => VehicleEntry(vehicles[i], Fresh, ImageFor(images, vehicles[i].id)))
  }

  /** The entries `initialize` adds: one `Fresh` entry per listed vehicle,
      sorted by vehicle name. */
  lemma InitialEntries(documents: seq<VehicleDocument>, images: map<string, Bitmap>)
    ensures var added := SortByName(FreshEntries(AllVehicles(documents), images));
      && SortedByName(added)
      && |added| == |AllVehicles(documents)|
      && multiset(added) == multiset(FreshEntries(AllVehicles(documents), images))
      && forall e :: e in added ==> e.status == Fresh && e.vehicle in AllVehicles(documents)
  {
    var built := FreshEntries(AllVehicles(documents), images);
    var added := SortByName(built);
    assert |added| == |multiset(added)| == |multiset(built)| == |built|;
    forall e | e in added ensures e.status == Fresh && e.vehicle in AllVehicles(documents) {
      assert e in multiset(added);
      assert e in multiset(built);
    }
  }

  /** `indexOfFirst { it.vehicle.id == id }`. */
  function IndexOfFirst(entries: seq<VehicleEntry>, id: string): (k: int)
    ensures -1 <= k < |entries|
    ensures k >= 0 ==> entries[k].vehicle.id == id
    ensures forall j :: 0 <= j < |entries| && (k == -1 || j < k) ==> entries[j].vehicle.id != id
  {
    if entries == [] then -1
    else if entries[0].vehicle.id == id then 0
    else
      var k := IndexOfFirst(entries[1..], id);
      if k == -1 then -1 else k + 1
  }

  class DashboardViewModel {
    var entries: seq<VehicleEntry>
    var initializationStatus: InitializationStatus
    var form: StartSessionForm
    var isSubmitting: bool
    /** The ticket count a newly built form starts with. */
    const defaultTickets: Long

    /** The form is closed and blank, or open on an existing entry. */
    ghost predicate Valid()
      reads this
    {
      if form.index == -1 then form == StartSessionForm(-1, defaultTickets)
      else 0 <= form.index < |entries|
    }

    function IsStartSessionFormOpen(): bool
      reads this
    {
      form.index != -1
    }

    /** The view-model as constructed; `init` only launches `initialize`. */
    constructor (defaultTickets: Long)
      ensures Valid()
      ensures entries == [] && initializationStatus == Uninitialized
      ensures form == StartSessionForm(-1, defaultTickets) && !isSubmitting
    {
      this.defaultTickets := defaultTickets;
      entries := [];
      initializationStatus := Uninitialized;
      form := StartSessionForm(-1, defaultTickets);
      isSubmitting := false;
    }

    /** The `initialize` coroutine. `documents` is what the vehicle query
        returned, `None` when it threw (a failed query, or a document field
        of the wrong type); `images` is what the image manager
        returned per vehicle id. On success the sorted fresh entries are
        appended and `fetchStatus()` marks every entry `Fetching`. */
    method Initialize(documents: Option<seq<VehicleDocument>>, images: map<string, Bitmap>)
      requires Valid()
      modifies this`entries, this`initializationStatus
      ensures Valid()
      ensures documents.None? ==> initializationStatus == InitializationStatus.Failed && entries == old(entries)
      ensures documents.Some? ==>
        var added := SortByName(FreshEntries(AllVehicles(documents.value), images));
        && initializationStatus == InitializationStatus.Successful
        && |entries| == |old(entries)| + |added|
        && (forall i :: 0 <= i < |old(entries)| ==> entries[i] == old(entries)[i].(status := Fetching))
        && (forall i :: 0 <= i < |added| ==> entries[|old(entries)| + i] == added[i].(status := Fetching))
    {
      if documents.None? {
        initializationStatus := InitializationStatus.Failed;
        return;
      }
      var added := SortByName(FreshEntries(AllVehicles(documents.value), images));
      ghost var before := entries;
      entries := entries + added;
      initializationStatus := InitializationStatus.Successful;
      FetchAllStatuses();
      forall i | 0 <= i < |before|
        ensures entries[i] == before[i].(status := Fetching)
      {
        assert (before + added)[i] == before[i];
      }
      forall i | 0 <= i < |added|
        ensures entries[|before| + i] == added[i].(status := Fetching)
      {
        assert (before + added)[|before| + i] == added[i];
      }
    }

    /** `fetchStatus(index)`, start step: ignored for an index out of range or
        an entry already being fetched; otherwise that entry becomes
        `Fetching`. `started` tells whether a request was launched. */
    method FetchStatus(index: int) returns (started: bool)
      requires Valid()
      modifies this`entries
      ensures Valid()
      ensures started <==> 0 <= index < |old(entries)| && old(entries)[index].status != Fetching
      ensures started ==> entries == old(entries)[index := old(entries)[index].(status := Fetching)]
      ensures !started ==> entries == old(entries)
    {
      if index < 0 || index >= |entries| {
        return false;
      }
      var entry := entries[index];
      if entry.status == Fetching {
        return false;
      }
      entries := entries[index := entry.(status := Fetching)];
      started := true;
    }

    /** `fetchStatus(index)`, completion step: `response` is the controller's
        answer to `getStatus`. Only that entry's status changes. */
    method CompleteFetchStatus(index: int, response: Response)
      requires Valid()
      requires 0 <= index < |entries|
      modifies this`entries
      ensures Valid()
      ensures |entries| == |old(entries)|
      ensures forall j :: 0 <= j < |entries| && j != index ==> entries[j] == old(entries)[j]
      ensures entries[index].vehicle == old(entries)[index].vehicle
      ensures entries[index].image == old(entries)[index].image
      ensures entries[index].status ==
        if response.Thrown? then Disconnected
        else if CheckAvailability(response.text) then Idle
        else Running
    {
      var status: VehicleStatus;
      match response {
        case Thrown =>
          status := Disconnected;
        case Body(text) =>
          var isIdle := CheckAvailability(text);
          status := if isIdle then Idle else Running;
      }
      entries := entries[index := entries[index].(status := status)];
    }

    /** `fetchStatus()`: the start step for every index in turn. */
    method FetchAllStatuses()
      requires Valid()
      modifies this`entries
      ensures Valid()
      ensures |entries| == |old(entries)|
      ensures forall i :: 0 <= i < |entries| ==> entries[i] == old(entries)[i].(status := Fetching)
    {
      for i := 0 to |entries|
        invariant Valid()
        invariant |entries| == |old(entries)|
        invariant forall j :: 0 <= j < i ==> entries[j] == old(entries)[j].(status := Fetching)
        invariant forall j :: i <= j < |entries| ==> entries[j] == old(entries)[j]
      {
        var started := FetchStatus(i);
      }
    }

    /** The `ImageSaved` handler: replaces the image of the first entry for
        that vehicle id, if any. */
    method OnImageSaved(event: ImageEvent)
      requires Valid()
      modifies this`entries
      ensures Valid()
      ensures |entries| == |old(entries)|
      ensures forall j :: 0 <= j < |entries| ==>
        entries[j].vehicle == old(entries)[j].vehicle && entries[j].status == old(entries)[j].status
      ensures forall j :: 0 <= j < |entries| ==>
        entries[j].image == if j == IndexOfFirst(old(entries), event.identifier) then Some(event.bitmap)
                            else old(entries)[j].image
    {
      var index := IndexOfFirst(entries, event.identifier);
      if index != -1 {
        entries := entries[index := entries[index].(image := Some(event.bitmap))];
      }
    }

    /** `uploadImage(index, bitmap)`, start step: the image name the image
        manager is asked to save under, or `None` for an index out of range. */
    method UploadImage(index: int) returns (target: Option<string>)
      ensures target.Some? <==> 0 <= index < |entries|
      ensures target.Some? ==> target.value == entries[index].vehicle.id
    {
      if index < 0 || index >= |entries| {
        return None;
      }
      target := Some(entries[index].vehicle.id);
    }

    /** `openStartSessionForm(index)`: opens the form on an `Idle` entry when
        no form is open. */
    method OpenStartSessionForm(index: int)
      requires Valid()
      modifies this`form
      ensures Valid()
      ensures old(form.index) == -1 && 0 <= index < |entries| && entries[index].status == Idle ==>
        form == StartSessionForm(index, defaultTickets)
      ensures !(old(form.index) == -1 && 0 <= index < |entries| && entries[index].status == Idle) ==>
        form == old(form)
    {
      if form.index != -1 {
        return;
      }
      if index < 0 || index >= |entries| {
        return;
      }
      var status := entries[index].status;
      if status != Idle {
        return;
      }
      form := StartSessionForm(index, defaultTickets);
    }

    method CloseStartSessionForm()
      requires Valid()
      modifies this`form
      ensures Valid()
      ensures form == StartSessionForm(-1, defaultTickets)
    {
      if form.index == -1 {
        return;
      }
      form := StartSessionForm(-1, defaultTickets);
    }

    /** `chooseNumberOfTickets`: only 1 or 2 tickets, only on an open form. */
    method ChooseNumberOfTickets(numberOfTickets: Long)
      requires Valid()
      modifies this`form
      ensures Valid()
      ensures form.index == old(form.index)
      ensures old(form.index) != -1 && 1 <= numberOfTickets <= 2 ==> form.numberOfTickets == numberOfTickets
      ensures !(old(form.index) != -1 && 1 <= numberOfTickets <= 2) ==> form == old(form)
    {
      if form.index == -1 {
        return;
      }
      if numberOfTickets < 1 || numberOfTickets > 2 {
        return;
      }
      form := form.(numberOfTickets := numberOfTickets);
    }

    /** `submitStartSessionForm`, start step: ignored while the form is closed
        or a submission is in flight. `submitted` is the form the launched
        request is made for. */
    method SubmitStartSessionForm() returns (submitted: Option<StartSessionForm>)
      requires Valid()
      modifies this`isSubmitting
      ensures Valid()
      ensures submitted.Some? <==> old(form.index) != -1 && !old(isSubmitting)
      ensures submitted.Some? ==> submitted.value == form && isSubmitting
      ensures submitted.None? ==> isSubmitting == old(isSubmitting)
    {
      if form.index == -1 {
        return None;
      }
      if isSubmitting {
        return None;
      }
      isSubmitting := true;
      submitted := Some(form);
    }

    /** `submitStartSessionForm`, completion step for the submitted `index`:
        the vehicle is disconnected after a connection error and running after
        any answer; an unauthorized attempt leaves it alone. The form closes. */
    method CompleteSubmitStartSessionForm(index: int, result: StartSessionResult)
      requires Valid()
      requires 0 <= index < |entries|
      modifies this`entries, this`isSubmitting, this`form
      ensures Valid()
      ensures result == ConnectionError ==>
        entries == old(entries)[index := old(entries)[index].(status := Disconnected)]
      ensures result == StartSessionResult.Failed || result == StartSessionResult.Successful ==>
        entries == old(entries)[index := old(entries)[index].(status := Running)]
      ensures result == StartSessionResult.Unauthorized ==> entries == old(entries)
      ensures !isSubmitting && form == StartSessionForm(-1, defaultTickets)
    {
      match result {
        case ConnectionError =>
          entries := entries[index := entries[index].(status := Disconnected)];
        case Failed =>
          entries := entries[index := entries[index].(status := Running)];
        case Successful =>
          entries := entries[index := entries[index].(status := Running)];
        case Unauthorized =>
      }
      isSubmitting := false;
      form := StartSessionForm(-1, defaultTickets);
    }
  }
}
