/** The two live session settings and the listeners that update them from
    the `configurations` collection. */
module Configuration {
  import opened Common

  /** Minutes a one-ticket session lasts until a document says otherwise. */
  const DefaultSessionDuration: Long := 20
  /** Minutes before the end of a session at which the vehicle alerts. */
  const DefaultAlertDuration: Long := 5

  /** A `configurations` document; `value` is `None` when the document has no
      `value` field. A `value` of a non-integer type, on which `getLong`
      throws, is not represented. */
  datatype ConfigurationDocument = ConfigurationDocument(value: Option<Long>)

  class ConfigurationService {
    var sessionDuration: Long
    var alertDuration: Long

    constructor ()
      ensures sessionDuration == DefaultSessionDuration && alertDuration == DefaultAlertDuration
    {
      sessionDuration := DefaultSessionDuration;
      alertDuration := DefaultAlertDuration;
    }

    /** Listener on `configurations/session_duration`. */
    method OnSessionDurationSnapshot(document: Option<ConfigurationDocument>, hasError: bool)
      modifies this`sessionDuration
      ensures alertDuration == old(alertDuration)
      ensures document.None? || hasError ==> sessionDuration == old(sessionDuration)
      ensures document.Some? && !hasError && document.value.value.None? ==> sessionDuration == old(sessionDuration)
      ensures document.Some? && !hasError && document.value.value.Some? ==> sessionDuration == document.value.value.value
    {
      if document.None? || hasError {
        return;
      }
      sessionDuration := document.value.value.GetOr(sessionDuration);
    }

    /** Listener on `configurations/session_is_about_to_end_duration`. */
    method OnAlertDurationSnapshot(document: Option<ConfigurationDocument>, hasError: bool)
      modifies this`alertDuration
      ensures sessionDuration == old(sessionDuration)
      ensures document.None? || hasError ==> alertDuration == old(alertDuration)
      ensures document.Some? && !hasError && document.value.value.None? ==> alertDuration == old(alertDuration)
      ensures document.Some? && !hasError && document.value.value.Some? ==> alertDuration == document.value.value.value
    {
      if document.None? || hasError {
        return;
      }
      alertDuration := document.value.value.GetOr(alertDuration);
    }
  }
}
