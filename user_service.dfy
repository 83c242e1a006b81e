/** The user service (crates/core/src/services/user_service.rs) over abstract ports. */
module UserService {
  import opened Wrappers
  import opened Envelope
  import opened Errors
  import opened Adaptors
  import opened Domain

  /**
   * The service's collaborators: the repository port, the JSON encoding of a
   * user, and the publisher.
   */
  datatype Ports = Ports(
    save: User -> Result<(), UserError>,
    findById: string -> Result<Option<User>, UserError>,
    encode: User -> Result<Bytes, string>,
    publish: PublishFn)

  /** What registering does outside the service, in order. */
  datatype Effect = Saved(user: User) | Sent(call: PublishCall)

  datatype Registered = Registered(result: Result<User, UserError>, effects: seq<Effect>)

  const UserCreatedTopic := "user.created"

  function AsEffects(calls: seq<PublishCall>): (r: seq<Effect>)
    ensures |r| == |calls| && forall i :: 0 <= i < |calls| ==> r[i] == Sent(calls[i])
  {
    seq(|calls|, i requires 0 <= i < |calls| => Sent(calls[i]))
  }

  /**
   * `register_user` with a freshly generated id: build the user, save it (a
   * failure is returned as is, nothing published), then publish it to
   * "user.created", ignoring the outcome.
   */
  function RegisterUser(id: string, username: string, email: string, ports: Ports): (r: Registered)
    ensures var u := NewUser(id, username, email);
      && |r.effects| >= 1 && r.effects[0] == Saved(u)
      && (ports.save(u).Err? ==> r.result == Err(ports.save(u).error) && r.effects == [Saved(u)])
      && (ports.save(u).Ok? ==>
            r.result == Ok(u)
            && r.effects == [Saved(u)] + AsEffects(PublishJson(ports.publish, UserCreatedTopic, ports.encode(u)).calls))
  {
    var u := NewUser(id, username, email);
    var saved := ports.save(u);
    if saved.Err? then Registered(Err(saved.error), [Saved(u)])
    else
      var published := PublishJson(ports.publish, UserCreatedTopic, ports.encode(u));
      Registered(Ok(u), [Saved(u)] + AsEffects(published.calls))
  }

  /** A registered user has the given name and email and is active. */
  lemma RegisteredUserIsActive(id: string, username: string, email: string, ports: Ports)
    requires RegisterUser(id, username, email, ports).result.Ok?
    ensures var u := RegisterUser(id, username, email, ports).result.value;
      u.id == id && u.username == username && u.email == email && u.active
  {
  }

  /** Whether publishing fails, or even happens, has no bearing on the result. */
  lemma PublishOutcomeIgnored(id: string, username: string, email: string, p1: Ports, p2: Ports)
    requires p1.save == p2.save
    ensures RegisterUser(id, username, email, p1).result == RegisterUser(id, username, email, p2).result
  {
  }

  /** After a successful save and encoding, the user's bytes are published once, to "user.created", with no attributes. */
  lemma PublishesCreatedEvent(id: string, username: string, email: string, ports: Ports)
    requires ports.save(NewUser(id, username, email)).Ok?
    requires ports.encode(NewUser(id, username, email)).Ok?
    ensures var u := NewUser(id, username, email);
      RegisterUser(id, username, email, ports).effects
        == [Saved(u), Sent(PublishCall(UserCreatedTopic, ports.encode(u).value, map[]))]
  {
  }

  /** `get_user`: a repository error as is, an absent user as `NotFound`. */
  function GetUser(id: string, ports: Ports): (r: Result<User, UserError>)
    ensures ports.findById(id).Err? ==> r == Err(ports.findById(id).error)
    ensures ports.findById(id) == Ok(None) ==> r == Err(NotFound)
    ensures ports.findById(id).Ok? && ports.findById(id).value.Some? ==> r == Ok(ports.findById(id).value.value)
  {
    match ports.findById(id)
    case Err(e) => Err(e)
    case Ok(None) => Err(NotFound)
    case Ok(Some(u)) => Ok(u)
  }
}
