/** The service endpoint `POST /services`: an insert under a fresh id. */
module Services {
  import opened Wrappers
  import opened Store

  /** The `duration_minutes` a request body that omits it is given. */
  const DefaultDuration: int := 60

  /** A `Service` request body. Its `id` is never read. */
  datatype ServiceBody = ServiceBody(
    id: Option<int>,
    title: string,
    description: Option<string>,
    providerUserId: int,
    durationMinutes: Option<int>)

  /** A `Service` response: the stored row together with its key. */
  datatype ServiceView = ServiceView(id: int, service: Service)

  /** The row a request body writes, defaults filled in. */
  function ServiceOf(body: ServiceBody): Service
  {
    Service(body.title, body.description, body.providerUserId,
            body.durationMinutes.GetOr(DefaultDuration))
  }

  /** `create_service`: inserts a row under the next AUTOINCREMENT id and
      echoes it. There is no check that the provider is a user: a service may
      name an id with no row in the users table. */
  function CreateService(s: State, body: ServiceBody): (r: (State, ServiceView))
    ensures Valid(s) ==> r.1.id !in s.services
    ensures s.nextServiceId <= r.1.id < r.0.nextServiceId
    ensures r.1.service.title == body.title
    ensures r.1.service.description == body.description
    ensures r.1.service.providerUserId == body.providerUserId
    ensures body.durationMinutes.Some? ==> r.1.service.durationMinutes == body.durationMinutes.value
    ensures body.durationMinutes.None? ==> r.1.service.durationMinutes == DefaultDuration
    ensures r.0.services.Keys == s.services.Keys + {r.1.id}
    ensures r.0.services[r.1.id] == r.1.service
    ensures forall k :: k in s.services && k != r.1.id ==> r.0.services[k] == s.services[k]
    ensures r.0.users == s.users && r.0.log == s.log
    ensures r.0.nextUserId == s.nextUserId && r.0.nextTxId == s.nextTxId
    ensures Valid(s) ==> Valid(r.0)
  {
    var id := s.nextServiceId;
    var row := ServiceOf(body);
    (s.(services := s.services[id := row], nextServiceId := id + 1), ServiceView(id, row))
  }
}
