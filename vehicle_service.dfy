/** The vehicle catalogue filter, the availability test and the
    start-session protocol with its session-history record. */
module Vehicles {
  import opened Common
  import opened Authorization
  import opened Configuration

  datatype Vehicle = Vehicle(id: string, name: string, localIP: string, price: Long)

  /** A `vehicles` document whose `name`, `local_ip` and `price` are each
      absent (`None`) or of the type the reader expects. A field of another
      type makes the whole query throw, which is the failed query that
      `initialize` handles. */
  datatype VehicleDocument = VehicleDocument(id: string, name: Option<string>, localIP: Option<string>, price: Option<Long>)

  datatype StartSessionResult = Unauthorized | ConnectionError | Failed | Successful

  /** The `startSession` request sent to a vehicle's controller: its host and
      the three query parameters. */
  datatype StartRequest = StartRequest(host: string, span: Long, sessionDuration: Long, alertDuration: Long)

  /** A `session_histories` document; `timestamp` is the clock reading taken
      when the record is written. */
  datatype HistoryRecord = HistoryRecord(numberOfTickets: Long, price: Long, sessionDuration: Long, employeeName: string, timestamp: int)

  predicate IsComplete(d: VehicleDocument) {
    d.name.Some? && d.localIP.Some? && d.price.Some?
  }

  /** The `mapNotNull` lambda of `getAllVehicles`. */
  function ToVehicle(d: VehicleDocument): Option<Vehicle> {
    if d.name.None? then None
    else if d.localIP.None? then None
    else if d.price.None? then None
    else Some(Vehicle(d.id, d.name.value, d.localIP.value, d.price.value))
  }

  /** `getAllVehicles`: the vehicles of the complete documents, in query order. */
  function AllVehicles(documents: seq<VehicleDocument>): (vehicles: seq<Vehicle>)
    ensures |vehicles| <= |documents|
    ensures forall v :: v in vehicles ==> v.id in set d | d in documents :: d.id
  {
    if documents == [] then []
    else
      var rest := AllVehicles(documents[1..]);
      match ToVehicle(documents[0])
      case None => rest
      case Some(v) => [v] + rest
  }

  /** A single document yields its vehicle exactly when it is complete. */
  lemma AllVehiclesOfOne(d: VehicleDocument)
    ensures IsComplete(d) ==> AllVehicles([d]) == [Vehicle(d.id, d.name.value, d.localIP.value, d.price.value)]
    ensures !IsComplete(d) ==> AllVehicles([d]) == []
  {
    assert [d][1..] == [];
  }

  /** The filter keeps the relative order of the documents it keeps. */
  lemma {:induction false} AllVehiclesAppend(a: seq<VehicleDocument>, b: seq<VehicleDocument>)
    ensures AllVehicles(a + b) == AllVehicles(a) + AllVehicles(b)
  {
    if a == [] {
      assert a + b == b;
    } else {
      assert (a + b)[1..] == a[1..] + b;
      AllVehiclesAppend(a[1..], b);
    }
  }

  /** A vehicle is listed iff some document is complete and carries exactly
      its id, name, local IP and price. */
  lemma {:induction false} AllVehiclesMembership(documents: seq<VehicleDocument>, v: Vehicle)
    ensures v in AllVehicles(documents) <==>
      exists i :: 0 <= i < |documents| && IsComplete(documents[i]) &&
        v == Vehicle(documents[i].id, documents[i].name.value, documents[i].localIP.value, documents[i].price.value)
  {
    if documents != [] {
      AllVehiclesMembership(documents[1..], v);
      var d := documents[0];
      if v in AllVehicles(documents[1..]) {
        var i :| 0 <= i < |documents[1..]| && IsComplete(documents[1..][i]) &&
          v == Vehicle(documents[1..][i].id, documents[1..][i].name.value, documents[1..][i].localIP.value, documents[1..][i].price.value);
        assert documents[i + 1] == documents[1..][i];
      }
      if exists i :: 0 <= i < |documents| && IsComplete(documents[i]) &&
          v == Vehicle(documents[i].id, documents[i].name.value, documents[i].localIP.value, documents[i].price.value)
      {
        var i :| 0 <= i < |documents| && IsComplete(documents[i]) &&
          v == Vehicle(documents[i].id, documents[i].name.value, documents[i].localIP.value, documents[i].price.value);
        if i > 0 {
          assert documents[1..][i - 1] == documents[i];
        }
      }
    }
  }

  /** `checkAvailability`: the vehicle is idle exactly when its controller's
      `getStatus` body is the text `idle`. */
  function CheckAvailability(body: string): (isIdle: bool)
    ensures isIdle <==> body == "idle"
  {
    body == "idle"
  }

  /** The `employee_name` written into a history record. */
  function EmployeeName(employee: AuthorizationState): (name: string)
    requires employee.Authorized?
  {
    employee.lastname + " " + employee.firstname
  }

  class VehicleService {
    const authorization: AuthorizationService
    const configuration: ConfigurationService
    /** The `session_histories` records this service has added, per vehicle id. */
    var histories: map<string, seq<HistoryRecord>>

    constructor (authorization: AuthorizationService, configuration: ConfigurationService)
      ensures this.authorization == authorization && this.configuration == configuration
      ensures histories == map[]
    {
      this.authorization := authorization;
      this.configuration := configuration;
      histories := map[];
    }

    function HistoryOf(id: string): seq<HistoryRecord>
      reads this
    {
      if id in histories then histories[id] else []
    }

    /** `startSession`: `response` is what the controller answers to the
        request this call sends (it is not consulted when none is sent);
        `now` is the clock reading for the history record. `request` is the
        request sent, if any. */
    method StartSession(vehicle: Vehicle, numberOfTickets: Long, response: Response, now: int)
      returns (result: StartSessionResult, request: Option<StartRequest>)
      modifies this`histories
      ensures !authorization.state.Authorized? ==>
        result == StartSessionResult.Unauthorized && request == None && histories == old(histories)
      ensures authorization.state.Authorized? ==>
        request == Some(StartRequest(vehicle.localIP, numberOfTickets,
                                     configuration.sessionDuration, configuration.alertDuration))
      ensures authorization.state.Authorized? && response.Thrown? ==>
        result == ConnectionError && histories == old(histories)
      ensures authorization.state.Authorized? && response == Body("successful") ==>
        result == Successful &&
        histories == old(histories)[vehicle.id := old(HistoryOf(vehicle.id)) +
          [HistoryRecord(numberOfTickets, vehicle.price, configuration.sessionDuration,
                         authorization.state.lastname + " " + authorization.state.firstname, now)]]
      ensures authorization.state.Authorized? && response.Body? && response.text != "successful" ==>
        result == Failed && histories == old(histories)
    {
      var authorized := authorization.state;
      if !authorized.Authorized? {
        return StartSessionResult.Unauthorized, None;
      }
      var sessionDuration := configuration.sessionDuration;
      var alertDuration := configuration.alertDuration;
      request := Some(StartRequest(vehicle.localIP, numberOfTickets, sessionDuration, alertDuration));
      if response.Thrown? {
        return ConnectionError, request;
      }
      var success := response.text == "successful";
      if success {
        var record := HistoryRecord(numberOfTickets, vehicle.price, sessionDuration, EmployeeName(authorized), now);
        histories := histories[vehicle.id := HistoryOf(vehicle.id) + [record]];
        result := Successful;
      } else {
        result := Failed;
      }
    }
  }
}
