# ATV control (employee app): dashboard state machine and service rules

This project models the decision logic of an Android app that theme-park employees use to watch and start paid rides ("vehicles"). Each vehicle has an embedded controller on the local network. The model covers:

- the dashboard view-model: one entry per vehicle, holding its status (`Fresh`, `Fetching`, `Idle`, `Running`, `Disconnected`) and an optional image. It also holds the start-session form (`index == -1` means closed), the in-flight submission flag and the initialization status.
- the vehicle service: which catalogue documents become vehicles, what counts as an idle vehicle, and how a start-session attempt is classified. A successful attempt also writes a session-history record.
- the image manager: center-crop geometry, the file-name-to-name rule, the unused-image cleanup, and the cache rules of `get` and `save`.
- the authorization and configuration listeners, each a small state update from a snapshot.
- the dashboard screen's card-tap dispatch, the prices shown in the start-session dialog, and when the confirm button is enabled.

Every coroutine the view-model launches is split into two atomic steps:
- a start step, which checks the guard and makes the synchronous writes;
- a completion step, which takes the outcome of the I/O as a parameter.

HTTP answers are a `Response` (`Body(text)` or `Thrown`). Firestore documents and snapshots are datatypes passed to the listeners. Whether a disk read could start is a boolean input, and how a disk write ended is a `WriteOutcome` input. A file on disk is either a JPEG of a bitmap or `Damaged`. The clock reading of a history record is a parameter.

Modules: `Common` (nullable values, Kotlin `Long` and its wrap-around, HTTP responses), `Authorization`, `Configuration`, `Vehicles`, `Images`, `Dashboard` (the view-model class) and `DashboardScreen`. Kotlin `Long` values are the subset type `Long`. The one place where `Long` overflow can show is the two-ticket total `2 * price`; there the wrap-around is written out (`WrapLong`).

`initialize` first builds the sorted entries with status `Fresh`. It then calls `fetchStatus()`, whose start steps run at once on the main dispatcher. So when `Initialize` returns, every entry is `Fetching`. `InitialEntries` states the properties of the `Fresh` list that was built.

## Model

| member | source | states |
|---|---|---|
| `Common.WrapLong` | app/src/main/java/com/anhcop/atvcontrol_employee/screens/dashboard/DashboardScreen.kt:140 | Kotlin `Long` arithmetic: an in-range value is kept, and a value one modulus above or below the range wraps by 2^64 |
| `Authorization.AuthorizationService.constructor` | app/src/main/java/com/anhcop/atvcontrol_employee/services/authorization/AuthorizationService.kt:25 | the authorization state starts as `Initializing` |
| `Authorization.AuthorizationService.OnSnapshot` | app/src/main/java/com/anhcop/atvcontrol_employee/services/authorization/AuthorizationService.kt:32-48 | a missing snapshot or an error leaves the state unchanged. An empty result sets `Unauthorized`. Otherwise the state becomes `Authorized` with the first document's id, firstname and lastname, whatever the previous state was. The requires is the `!!` on both names |
| `Configuration.ConfigurationService.constructor` | app/src/main/java/com/anhcop/atvcontrol_employee/services/configuration/ConfigurationService.kt:11-14 | the session duration starts at 20 and the alert duration at 5 |
| `Configuration.ConfigurationService.OnSessionDurationSnapshot` | app/src/main/java/com/anhcop/atvcontrol_employee/services/configuration/ConfigurationService.kt:20-27 | a missing document, an error or a missing `value` leaves the session duration unchanged. Otherwise `value` replaces it. The alert duration never changes |
| `Configuration.ConfigurationService.OnAlertDurationSnapshot` | app/src/main/java/com/anhcop/atvcontrol_employee/services/configuration/ConfigurationService.kt:29-36 | the same rule for the alert duration; the session duration never changes |
| `Vehicles.AllVehicles` | app/src/main/java/com/anhcop/atvcontrol_employee/services/vehicle/VehicleService.kt:51-60 | never more vehicles than documents, and every vehicle's id is the id of one of the documents |
| `Vehicles.AllVehiclesOfOne` | app/src/main/java/com/anhcop/atvcontrol_employee/services/vehicle/VehicleService.kt:53-58 | a single document yields `Vehicle(id, name, localIP, price)` if it has all three fields, and nothing otherwise |
| `Vehicles.AllVehiclesAppend` | app/src/main/java/com/anhcop/atvcontrol_employee/services/vehicle/VehicleService.kt:52-59 | the filter commutes with concatenation, so the kept vehicles stay in document order |
| `Vehicles.AllVehiclesMembership` | app/src/main/java/com/anhcop/atvcontrol_employee/services/vehicle/VehicleService.kt:52-59 | a vehicle is listed iff some complete document carries exactly its id, name, local IP and price |
| `Vehicles.CheckAvailability` | app/src/main/java/com/anhcop/atvcontrol_employee/services/vehicle/VehicleService.kt:62-72 | idle iff the `getStatus` body is exactly the text `idle` |
| `Vehicles.VehicleService.constructor` | app/src/main/java/com/anhcop/atvcontrol_employee/services/vehicle/VehicleService.kt:23-27 | the service reads the given authorization and configuration services, and it has written no history yet |
| `Vehicles.VehicleService.StartSession` | app/src/main/java/com/anhcop/atvcontrol_employee/services/vehicle/VehicleService.kt:74-109 | see the list below this table |
| `Images.CenterCrop` | app/src/main/java/com/anhcop/atvcontrol_employee/services/image/ImageManager.kt:60-70 | the side is `min(w, h)` and the square lies inside the bitmap. The two margins of each axis differ by 0 or 1, so the square is centred. For a non-empty bitmap the side is positive, so `createBitmap` accepts it |
| `Images.BaseName` | app/src/main/java/com/anhcop/atvcontrol_employee/services/image/ImageManager.kt:34 | the name is a prefix of the file name with no dot, followed in the file name by a dot or by nothing |
| `Images.BaseNameOfImageFile` | app/src/main/java/com/anhcop/atvcontrol_employee/services/image/ImageManager.kt:34 | a dot-free name is recovered from its file `<name>.jpg` |
| `Images.ImageFileNameInjective` | app/src/main/java/com/anhcop/atvcontrol_employee/services/image/ImageManager.kt:45 | distinct names are stored in distinct `.jpg` files |
| `Images.ImageManager.constructor` | app/src/main/java/com/anhcop/atvcontrol_employee/services/image/ImageManager.kt:19-26 | the cache starts empty and no event has been emitted |
| `Images.ImageManager.StoredNames` | app/src/main/java/com/anhcop/atvcontrol_employee/services/image/ImageManager.kt:28-35 | the base names (`split(".")[0]`) of the files in the `images` directory; every dot-free name stored as `<name>.jpg` is among them |
| `Images.ImageManager.Get` | app/src/main/java/com/anhcop/atvcontrol_employee/services/image/ImageManager.kt:37-58 | a cached bitmap is returned and nothing changes. On a miss, a successful read returns the file's bitmap and caches it. A failed read or a missing or damaged file returns null and leaves the cache unchanged |
| `Images.ImageManager.Save` | app/src/main/java/com/anhcop/atvcontrol_employee/services/image/ImageManager.kt:72-90 | `save` as written. With no directory, no stream, or a throw while opening the stream, nothing changes. A throw inside `compress` leaves the file damaged, with no cache update and no event. Once `compress` returns, the 128x128 center-cropped thumbnail is cached and exactly one `ImageSaved(name, thumbnail)` event is appended. This happens whether `compress` reported success, in which case the file holds the thumbnail, or failure, in which case the file is left damaged |
| `Images.ImageManager.SaveChecked` | app/src/main/java/com/anhcop/atvcontrol_employee/services/image/ImageManager.kt:72-90 | the corrected `save`. An event is emitted iff `compress` reported success. When it is, the thumbnail is decodable on disk and in the cache. Every failure leaves the cache and the events unchanged |
| `Images.SaveAnnouncesDamagedFile` | app/src/main/java/com/anhcop/atvcontrol_employee/services/image/ImageManager.kt:79-86 | with `compress` reporting failure on an empty store, `save` as written caches and announces the thumbnail while its file is damaged. The checked save announces and caches nothing |
| `Images.ImageManager.ClearUnusedImages` | app/src/main/java/com/anhcop/atvcontrol_employee/services/image/ImageManager.kt:92-107 | exactly the files `<n>.jpg` are removed, for every stored name `n` that is not a vehicle id and whose delete does not fail. Files that remain keep their content. No current vehicle's image is deleted. Every dot-free unused name that can be deleted is gone |
| `Dashboard.NameLeq` | app/src/main/java/com/anhcop/atvcontrol_employee/screens/dashboard/DashboardViewModel.kt:56 | the `String` order `sortedBy { it.vehicle.name }` compares by: character by character, a proper prefix first; `NameLeqTotal` and `NameLeqTransitive` prove it a total preorder |
| `Dashboard.NameLeqTotal` | app/src/main/java/com/anhcop/atvcontrol_employee/screens/dashboard/DashboardViewModel.kt:56 | any two names compare one way or the other |
| `Dashboard.NameLeqTransitive` | app/src/main/java/com/anhcop/atvcontrol_employee/screens/dashboard/DashboardViewModel.kt:56 | the name order is transitive |
| `Dashboard.InsertByName` | app/src/main/java/com/anhcop/atvcontrol_employee/screens/dashboard/DashboardViewModel.kt:56 | inserting into a sorted list gives a sorted list with one more copy of the entry |
| `Dashboard.SortByName` | app/src/main/java/com/anhcop/atvcontrol_employee/screens/dashboard/DashboardViewModel.kt:54-56 | `sortedBy { it.vehicle.name }` gives a list sorted by name that is a permutation of its input |
| `Dashboard.SortByNameStable` | app/src/main/java/com/anhcop/atvcontrol_employee/screens/dashboard/DashboardViewModel.kt:56 | the sort is stable: for every name, the entries with that name appear in the same order as in the input |
| `Dashboard.InitialEntries` | app/src/main/java/com/anhcop/atvcontrol_employee/screens/dashboard/DashboardViewModel.kt:53-57 | the entries `initialize` adds are sorted by name, one per listed vehicle (a permutation of the per-vehicle entries), all `Fresh`, and every vehicle in them is a listed one |
| `Dashboard.IndexOfFirst` | app/src/main/java/com/anhcop/atvcontrol_employee/screens/dashboard/DashboardViewModel.kt:62 | the result is -1 or a valid index. It is the first entry with that vehicle id, and -1 only when no entry has it |
| `Dashboard.DashboardViewModel.constructor` | app/src/main/java/com/anhcop/atvcontrol_employee/screens/dashboard/DashboardViewModel.kt:28-43 | starts with no entries, `Uninitialized`, the form closed with the default ticket count, and no submission in flight |
| `Dashboard.DashboardViewModel.IsStartSessionFormOpen` | app/src/main/java/com/anhcop/atvcontrol_employee/screens/dashboard/DashboardViewModel.kt:39-40 | the form is open exactly when its index is not -1; `Valid` then keeps that index in range |
| `Dashboard.DashboardViewModel.Initialize` | app/src/main/java/com/anhcop/atvcontrol_employee/screens/dashboard/DashboardViewModel.kt:49-84 | if the vehicle query throws: `Failed`, entries untouched. Otherwise: `Successful`, the sorted fresh entries appended, then every entry `Fetching` with vehicle and image kept. The form invariant holds |
| `Dashboard.DashboardViewModel.FetchStatus` | app/src/main/java/com/anhcop/atvcontrol_employee/screens/dashboard/DashboardViewModel.kt:86-98 | starts iff the index is in range and that entry is not `Fetching`. Then only that entry's status changes, to `Fetching`; otherwise nothing changes |
| `Dashboard.DashboardViewModel.CompleteFetchStatus` | app/src/main/java/com/anhcop/atvcontrol_employee/screens/dashboard/DashboardViewModel.kt:97-109 | only that entry's status changes: `Idle` for the body `idle`, `Running` for any other body, `Disconnected` on an exception. Its vehicle and image are untouched |
| `Dashboard.DashboardViewModel.FetchAllStatuses` | app/src/main/java/com/anhcop/atvcontrol_employee/screens/dashboard/DashboardViewModel.kt:112-116 | afterwards every entry is `Fetching`, with vehicle, image and entry count unchanged |
| `Dashboard.DashboardViewModel.OnImageSaved` | app/src/main/java/com/anhcop/atvcontrol_employee/screens/dashboard/DashboardViewModel.kt:59-67 | only the image of the first entry with that vehicle id is replaced. With no match nothing changes. Count, vehicles and statuses are kept |
| `Dashboard.DashboardViewModel.UploadImage` | app/src/main/java/com/anhcop/atvcontrol_employee/screens/dashboard/DashboardViewModel.kt:118-130 | a save is requested iff the index is in range, and it is made under that entry's vehicle id |
| `Dashboard.DashboardViewModel.OpenStartSessionForm` | app/src/main/java/com/anhcop/atvcontrol_employee/screens/dashboard/DashboardViewModel.kt:132-148 | the form opens on `index` with the default ticket count iff it was closed, the index is in range and that entry is `Idle`. Otherwise the form is unchanged |
| `Dashboard.DashboardViewModel.CloseStartSessionForm` | app/src/main/java/com/anhcop/atvcontrol_employee/screens/dashboard/DashboardViewModel.kt:150-156 | the form is closed and blank afterwards |
| `Dashboard.DashboardViewModel.ChooseNumberOfTickets` | app/src/main/java/com/anhcop/atvcontrol_employee/screens/dashboard/DashboardViewModel.kt:158-168 | the form index never changes. The ticket count becomes the value only on an open form and only for 1 or 2; otherwise the form is unchanged |
| `Dashboard.DashboardViewModel.SubmitStartSessionForm` | app/src/main/java/com/anhcop/atvcontrol_employee/screens/dashboard/DashboardViewModel.kt:170-181 | submits iff the form is open and nothing is in flight. It then sets `isSubmitting` and hands over the current form. Otherwise the flag is unchanged |
| `Dashboard.DashboardViewModel.CompleteSubmitStartSessionForm` | app/src/main/java/com/anhcop/atvcontrol_employee/screens/dashboard/DashboardViewModel.kt:183-208 | for the submitted index: `ConnectionError` gives `Disconnected`, `Failed` and `Successful` give `Running`, and `Unauthorized` leaves the entries alone. Then the flag is cleared and the form closed |
| `DashboardScreen.OnCardClick` | app/src/main/java/com/anhcop/atvcontrol_employee/screens/dashboard/DashboardScreen.kt:286-297 | a tap acts iff the card is enabled (`Idle`, `Running`, `Disconnected`). `Idle` opens the form, `Running` and `Disconnected` re-fetch, `Fresh` and `Fetching` do nothing |
| `DashboardScreen.IsClickable` | app/src/main/java/com/anhcop/atvcontrol_employee/screens/dashboard/DashboardScreen.kt:288 | the card's `clickable` is enabled exactly for `Idle`, `Running` and `Disconnected`; `OnCardClick` states how it gates the dispatch |
| `DashboardScreen.DialogPrice` | app/src/main/java/com/anhcop/atvcontrol_employee/screens/dashboard/DashboardScreen.kt:82-88 | the saved `price` of the open dialog: 0 until the keyed effect has run, then the price of the form's entry; `DialogTotals` states what the dialog shows from it |
| `DashboardScreen.OneTicketTotal` | app/src/main/java/com/anhcop/atvcontrol_employee/screens/dashboard/DashboardScreen.kt:120 | the one-ticket total is the price itself; stated in `DialogTotals` |
| `DashboardScreen.TwoTicketTotal` | app/src/main/java/com/anhcop/atvcontrol_employee/screens/dashboard/DashboardScreen.kt:140 | `2 * price` when it fits in a `Long`; otherwise the wrapped value, negative for an overflow upwards |
| `DashboardScreen.DialogTotals` | app/src/main/java/com/anhcop/atvcontrol_employee/screens/dashboard/DashboardScreen.kt:82-141 | the dialog exists only while the form is open, and its saved price starts at 0 on each opening. On that first frame both totals read 0. After the keyed effect of lines 84-88, the one-ticket total is the entry's price and the two-ticket total is twice it (when that fits in a `Long`) |
| `DashboardScreen.TapCard` | app/src/main/java/com/anhcop/atvcontrol_employee/screens/dashboard/DashboardScreen.kt:286-297 | tapping an `Idle` card with the form closed opens the form on it; with the form already open nothing changes. Tapping `Running` or `Disconnected` marks that entry `Fetching`. `Fresh` and `Fetching` change nothing. Only the entries and the form can change |
| `DashboardScreen.ConfirmEnabled` | app/src/main/java/com/anhcop/atvcontrol_employee/screens/dashboard/DashboardScreen.kt:152 | the confirm button is enabled exactly while no submission is in flight; `TapConfirm` states its effect |
| `DashboardScreen.TapConfirm` | app/src/main/java/com/anhcop/atvcontrol_employee/screens/dashboard/DashboardScreen.kt:150-153 | the disabled button does nothing while a submission is in flight. Otherwise it submits the open form. Only the `isSubmitting` flag can change |

`Vehicles.VehicleService.StartSession` states:
- If the employee is not `Authorized`, the result is `Unauthorized`, no request is sent and no history is written.
- Otherwise a request is sent with `span` = the ticket count and the current session and alert durations.
- An exception gives `ConnectionError` and no history.
- The body `successful` gives `Successful` and appends exactly one record to that vehicle's history: ticket count, per-ticket price, session duration, `"lastname firstname"` and the timestamp.
- Any other body gives `Failed` and no history.

## Left out

- Compose rendering, dialogs, layouts and the image picker are not modelled. Only the tap dispatch, the dialog prices and the confirm button's `enabled` rule are.
- Coroutine scheduling is not modelled. A launched block's start step and completion step are separate methods that the caller sequences, and nothing ties a completion to its start. `CompleteFetchStatus` and `CompleteSubmitStartSessionForm` may be given any valid index, not only the one that was fetched or submitted. The start step of `fetchStatus` writes `Fetching` at once, whereas the source writes it inside the launched block, so two calls for one index that both pass the `Fetching` guard are not captured.
- The HTTP client, URL building and the 5-second timeout are not modelled. A timeout is one way to get `Thrown`.
- Firestore queries, listener registration, the device identifier lookup and the clock are not modelled. Snapshots, the `now` timestamp and vehicle documents are inputs.
- The history write is not awaited in the source, and its failure is not observed. The model records it as written.
- Wrongly typed vehicle fields: in the source, a `name`, `local_ip` or `price` of the wrong type makes `getString`/`getLong` throw. The whole `getAllVehicles` call at DashboardViewModel.kt:54 then throws. This happens before the image-event subscription and the `clearUnusedImages` launch are reached, so `initialize` ends `Failed` and no cleanup is started. Vehicle documents in the model carry only absent or well-typed fields. That case therefore reaches `Dashboard.DashboardViewModel.Initialize` as its failed-query input (`None`), and it does not arise for `AllVehicles`.
- A floating-point `price`, which `getLong` truncates toward zero, is not modelled.
- A configuration `value` of a non-integer type, which can throw inside the listener, is not modelled.
- Android file and bitmap operations are not modelled. A bitmap is an abstract value with a width and height. Its content records only how it was derived: decoded, cropped or scaled. `scale(128, 128, true)` gives a 128x128 bitmap whose content is `Scaled(...)`, and the filtering is not modelled. The disk is a map from file name to `StoredFile`. A file is `Jpeg(bitmap)`, which decodes back to exactly that bitmap (a lossless JPEG round trip), or `Damaged`.
- `Images.ImageManager.Save`: a partly written file is the single value `Damaged`. Which bytes remain is not modelled, and neither is a decoder that might still accept them.
- `Images.ImageManager.ClearUnusedImages`: the vehicle list it compares against is an input. A failure of that second vehicle query (ImageManager.kt:93, from the network or a wrongly typed field) is not modelled. In the source the query runs inside the child `launch` of `initialize` (DashboardViewModel.kt:71-75), after `Successful` has been set. The `try` around the parent's body does not catch it. The exception therefore fails the `initialize` coroutine and reaches the thread's uncaught-exception handler, which by default ends the app.
- `Dashboard.NameLeq` compares Dafny characters (Unicode scalar values). Kotlin compares UTF-16 code units, so the order can differ for characters outside the Basic Multilingual Plane.
- `Dashboard.DashboardViewModel.Initialize` takes what `imageManager.get` returned per vehicle id as a map. The cache updates those calls make are modelled by `Images.ImageManager.Get`, not repeated here. `imageManager.events` subscription and the background `clearUnusedImages` launch are represented by `OnImageSaved` and `ClearUnusedImages`.
- `Dashboard.DashboardViewModel.CompleteSubmitStartSessionForm` takes the `StartSessionResult` as a parameter rather than calling `StartSession`. The two are linked only through that result type.
- `DashboardScreen.DialogPrice`: after an activity re-creation while the dialog is open, `rememberSaveable` restores the saved price instead of 0 for the first frame. This is not modelled.
- The default `numberOfTickets` of a new form is not visible in the source. It is the constructor parameter `defaultTickets`.

## Findings

| source | as written | input that shows it | evidently intended | confidence | as-written member | corrected member |
|---|---|---|---|---|---|---|
| app/src/main/java/com/anhcop/atvcontrol_employee/services/image/ImageManager.kt:79-86 | the `?: return` only catches a missing output stream; the Boolean that `compress` returns is discarded, so a failed compression is still cached and announced with `ImageSaved` | `save("car", b)` where `compress` returns `false` | cache and announce the thumbnail only when `compress` reports success | medium; not executed | `Images.ImageManager.Save`, `Images.SaveAnnouncesDamagedFile` | `Images.ImageManager.SaveChecked` |
