/** The services screen (`pages/services/services.screen.tsx`): the list
    fetched from `/api/services`, the search box over it, the action
    buttons, and the screen's own notification. The screen calls the
    server through the plain axios instance, so the body it sees is the
    server's envelope, which it opens itself. */
module ServicesScreen {
  import opened Wrappers
  import opened Text
  import opened Lists
  import opened Envelope
  import opened Snackbars
  import ProcessSearch

  /** A service as the table shows it. */
  datatype ServiceRow = ServiceRow(name: string, description: string, status: string, running: bool, enabled: bool)

  /** A service matches when the lower-cased query occurs in its
      lower-cased name or description. */
  predicate ServiceMatches(s: ServiceRow, query: string) {
    var q := ToLower(query);
    Contains(ToLower(s.name), q) || Contains(ToLower(s.description), q)
  }

  /** `filteredServices`: everything for a blank query, otherwise the
      matching services in their order. */
  function FilteredServices(services: seq<ServiceRow>, query: string): (r: seq<ServiceRow>)
    ensures ProcessSearch.IsBlank(query) ==> r == services
    ensures !ProcessSearch.IsBlank(query) ==> forall k :: 0 <= k < |r| ==> ServiceMatches(r[k], query)
    ensures forall k :: 0 <= k < |services| && ServiceMatches(services[k], query) ==> services[k] in r
    ensures multiset(r) <= multiset(services)
  {
    if ProcessSearch.IsBlank(query) then services
    else Filter(services, (s: ServiceRow) => ServiceMatches(s, query))
  }

  /** `response.data?.data || response.data`: the envelope's `data` when
      it is truthy, otherwise the body itself. */
  function Payload(body: Json): (p: Json)
    ensures Truthy(Get(body, "data")) ==> p == Get(body, "data")
    ensures !Truthy(Get(body, "data")) ==> p == body
  {
    if Truthy(Get(body, "data")) then Get(body, "data") else body
  }

  /** The list reaches the screen whether the body is the server's
      envelope or the bare list: arrays are truthy, and an array has no
      `data` key. */
  lemma PayloadOpensEnvelope(items: seq<Json>)
    ensures Payload(Wrap(JArray(items))) == JArray(items)
    ensures Payload(JArray(items)) == JArray(items)
  {
  }

  /** A failure record from the server is not an array, so it empties the
      list. */
  lemma FailureRecordIsNoList(message: string)
    ensures !Payload(Wrap(JObject(map["success" := JBool(false), "message" := JString(message)]))).JArray?
  {
  }

  class ServicesPage {
    var services: seq<ServiceRow>
    var loading: bool
    var notice: SnackbarState
    /** Every action posted, as (service name, action), oldest first. */
    var posted: seq<(string, string)>
    /** How an element of the fetched list is read as a row. */
    const asRow: Json -> ServiceRow

    constructor(asRow: Json -> ServiceRow)
      ensures services == [] && loading && notice == Initial && posted == []
      ensures this.asRow == asRow
    {
      services := [];
      loading := true;
      notice := Initial;
      posted := [];
      this.asRow := asRow;
    }

    /** `fetchServices()` with the outcome of the GET: an array payload
        becomes the list, any other payload empties it, and a failed
        request keeps the list and shows an error. Loading ends either way. */
    method FetchServices(outcome: Result<Json, string>)
      modifies this
      ensures !loading
      ensures outcome.Ok? && Payload(outcome.value).JArray? ==>
        services == Map(Payload(outcome.value).items, asRow) && notice == old(notice)
      ensures outcome.Ok? && !Payload(outcome.value).JArray? ==> services == [] && notice == old(notice)
      ensures outcome.Err? ==> services == old(services) && notice == SnackbarState(true, "Failed to load services", Error)
      ensures posted == old(posted)
    {
      match outcome
      case Ok(body) =>
        var data := Payload(body);
        if data.JArray? {
          services := Map(data.items, asRow);
        } else {
          services := [];
        }
        loading := false;
      case Err(_) =>
        notice := SnackbarState(true, "Failed to load services", Error);
        loading := false;
    }

    /** `handleAction(name, action)` with the outcome of the POST and of
        the refetch that follows a success. */
    method HandleAction(name: string, action: string, outcome: Result<Json, string>, refetch: Result<Json, string>)
      modifies this
      ensures posted == old(posted) + [(name, action)]
      ensures outcome.Ok? && refetch.Ok? ==>
        notice == SnackbarState(true, "Service " + name + " " + action + "ed successfully", Success)
      ensures outcome.Ok? ==> !loading
      ensures outcome.Ok? && refetch.Ok? && Payload(refetch.value).JArray? ==>
        services == Map(Payload(refetch.value).items, asRow)
      ensures outcome.Ok? && refetch.Ok? && !Payload(refetch.value).JArray? ==> services == []
      ensures outcome.Ok? && refetch.Err? ==>
        services == old(services) && notice == SnackbarState(true, "Failed to load services", Error)
      ensures outcome.Err? ==>
        notice == SnackbarState(true, "Failed to " + action + " service " + name, Error) &&
        services == old(services) && loading == old(loading)
    {
      posted := posted + [(name, action)];
      if outcome.Ok? {
        notice := SnackbarState(true, "Service " + name + " " + action + "ed successfully", Success);
        FetchServices(refetch);
      } else {
        notice := SnackbarState(true, "Failed to " + action + " service " + name, Error);
      }
    }
  }

  /** A first fetch of the server's envelope fills the list and ends
      loading; a later failed fetch keeps the list. */
  method FetchScenario(rows: seq<Json>, asRow: Json -> ServiceRow) returns (first: seq<ServiceRow>, afterFailure: seq<ServiceRow>, loading: bool)
    ensures first == Map(rows, asRow) && afterFailure == first && !loading
  {
    var page := new ServicesPage(asRow);
    PayloadOpensEnvelope(rows);
    page.FetchServices(Ok(Wrap(JArray(rows))));
    first := page.services;
    page.FetchServices(Err("timeout"));
    afterFailure := page.services;
    loading := page.loading;
  }
}
