/** The employee authorization state and the reducer run by the live
    `employees` query listener. */
module Authorization {
  import opened Common

  datatype AuthorizationState =
    | Initializing
    | Unauthorized
    | Authorized(id: string, firstname: string, lastname: string)

  /** An `employees` document whose `device_identifier` is this device's.
      A name is `None` when the field is missing. A field of another type
      makes `getString` throw, which crashes the listener just as the `!!` on
      a missing name does, so it is represented by `None` as well. */
  datatype EmployeeDocument = EmployeeDocument(id: string, firstname: Option<string>, lastname: Option<string>)

  /** One delivery of the query's result set, documents in query order. */
  datatype EmployeeSnapshot = EmployeeSnapshot(documents: seq<EmployeeDocument>)

  /** A delivery the listener can process without crashing: the first
      matching document, when there is one and the delivery is used at all,
      has both names (the listener dereferences them with `!!`). */
  predicate Processable(snapshot: Option<EmployeeSnapshot>, hasError: bool)
  {
    snapshot.None? || hasError || |snapshot.value.documents| == 0 ||
    (snapshot.value.documents[0].firstname.Some? && snapshot.value.documents[0].lastname.Some?)
  }

  class AuthorizationService {
    var state: AuthorizationState

    constructor ()
      ensures state == Initializing
    {
      state := Initializing;
    }

    /** The snapshot listener: ignores a missing snapshot or an error,
        otherwise overwrites the state from the first matching document. */
    method OnSnapshot(snapshot: Option<EmployeeSnapshot>, hasError: bool)
      requires Processable(snapshot, hasError)
      modifies this
      ensures snapshot.None? || hasError ==> state == old(state)
      ensures snapshot.Some? && !hasError && |snapshot.value.documents| == 0 ==> state == Unauthorized
      ensures snapshot.Some? && !hasError && |snapshot.value.documents| > 0 ==>
        var d := snapshot.value.documents[0];
        state == Authorized(d.id, d.firstname.value, d.lastname.value)
    {
      if snapshot.None? || hasError {
        return;
      }
      var documents := snapshot.value.documents;
      if |documents| == 0 {
        state := Unauthorized;
      } else {
        var document := documents[0];
        state := Authorized(document.id, document.firstname.value, document.lastname.value);
      }
    }
  }

  /** Every delivery overwrites the previous one: an authorized employee
      whose document stops matching becomes unauthorized again, and errors in
      between change nothing. */
  method ReauthorizationScenario(employee: EmployeeDocument)
    requires employee.firstname.Some? && employee.lastname.Some?
  {
    var service := new AuthorizationService();
    service.OnSnapshot(None, false);
    assert service.state == Initializing;
    service.OnSnapshot(Some(EmployeeSnapshot([employee])), false);
    assert service.state.Authorized? && service.state.id == employee.id;
    service.OnSnapshot(Some(EmployeeSnapshot([])), true);
    assert service.state.Authorized?;
    service.OnSnapshot(Some(EmployeeSnapshot([])), false);
    assert service.state == Unauthorized;
  }
}
