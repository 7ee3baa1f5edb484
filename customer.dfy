/** The `Customer` test entity: unguarded updates, and a fold that falls back on
    a placeholder when the name has been forgotten. */
module CustomerEntity {
  import opened Wrappers
  import opened Events
  import opened Idempotency
  import opened EsErrors
  import opened Forgetting

  type CustomerId = int

  /** The name a customer hydrates with once its creation name is forgotten. */
  const ForgottenName: string := "[forgotten]"

  datatype CustomerEvent =
    | Initialized(id: CustomerId, name: Forgettable<string>, email: string)
    | NameUpdated(name: Forgettable<string>)
    | EmailUpdated(email: string)

  datatype CustomerBuilder = CustomerBuilder(id: Option<CustomerId>, name: Option<string>, email: Option<string>)

  /** One arm of the fold's `match`. */
  function Apply(b: CustomerBuilder, e: CustomerEvent): CustomerBuilder
  {
    match e
    case Initialized(id, name, email) =>
      CustomerBuilder(Some(id), Some(if name.Set? then name.v else ForgottenName), Some(email))
    case NameUpdated(name) => if name.Set? then b.(name := Some(name.v)) else b
    case EmailUpdated(email) => b.(email := Some(email))
  }

  /** The builder after folding a history, oldest event first. */
  function Fold(history: seq<CustomerEvent>): CustomerBuilder
  {
    if history == [] then CustomerBuilder(None, None, None)
    else Apply(Fold(history[..|history| - 1]), history[|history| - 1])
  }

  datatype CustomerState = CustomerState(id: CustomerId, name: string, email: string)

  /** `build()`: fields are checked in declaration order. */
  function Build(b: CustomerBuilder): Result<CustomerState, EntityHydrationError>
  {
    if b.id.None? then Err(UninitializedFieldError("id"))
    else if b.name.None? then Err(UninitializedFieldError("name"))
    else if b.email.None? then Err(UninitializedFieldError("email"))
    else Ok(CustomerState(b.id.value, b.name.value, b.email.value))
  }

  function Hydrate(history: seq<CustomerEvent>): Result<CustomerState, EntityHydrationError>
  {
    Build(Fold(history))
  }

  /** `try_from_events`: the builder loop. */
  method TryFromEvents(events: EntityEvents<CustomerEvent>) returns (r: Result<CustomerState, EntityHydrationError>)
    ensures r == Hydrate(events.All())
  {
    var all := events.All();
    var builder := CustomerBuilder(None, None, None);
    var i := 0;
    while i < |all|
      invariant 0 <= i <= |all|
      invariant builder == Fold(all[..i])
    {
      FoldStep(all, i);
      builder := Apply(builder, all[i]);
      i := i + 1;
    }
    assert all[..|all|] == all;
    r := Build(builder);
  }

  /** Folding one more event of a history applies that event. */
  lemma FoldStep(history: seq<CustomerEvent>, i: nat)
    requires i < |history|
    ensures Fold(history[..i + 1]) == Apply(Fold(history[..i]), history[i])
  {
    assert history[..i + 1][..i] == history[..i];
  }

  /** A forgotten creation name hydrates to the placeholder. */
  lemma ForgottenInitialName(id: CustomerId, email: string)
    ensures Hydrate([Initialized(id, Forgotten, email)]) == Ok(CustomerState(id, ForgottenName, email))
  {
    assert [Initialized(id, Forgotten, email)][..0] == [];
  }

  /** A forgotten rename leaves the hydrated name as it was; a set one replaces it. */
  lemma RenameArm(history: seq<CustomerEvent>, name: Forgettable<string>)
    ensures var h := history + [NameUpdated(name)];
      Fold(h) == if name.Set? then Fold(history).(name := Some(name.v)) else Fold(history)
  {
    assert (history + [NameUpdated(name)])[..|history|] == history;
  }

  /** An email update sets the email whatever happened to the names. */
  lemma EmailArm(history: seq<CustomerEvent>, email: string)
    ensures Fold(history + [EmailUpdated(email)]) == Fold(history).(email := Some(email))
  {
    assert (history + [EmailUpdated(email)])[..|history|] == history;
  }

  /** The event with every forgettable field erased, as `forget` rewrites the history. */
  function ForgetEvent(e: CustomerEvent): CustomerEvent
  {
    match e
    case Initialized(id, _, email) => Initialized(id, Forgotten, email)
    case NameUpdated(_) => NameUpdated(Forgotten)
    case EmailUpdated(email) => EmailUpdated(email)
  }

  function ForgetAll(history: seq<CustomerEvent>): (r: seq<CustomerEvent>)
    ensures |r| == |history|
    ensures forall k :: 0 <= k < |history| ==> r[k] == ForgetEvent(history[k])
  {
    if history == [] then [] else ForgetAll(history[..|history| - 1]) + [ForgetEvent(history[|history| - 1])]
  }

  /** Forgetting keeps id and email, and once an `Initialized` event has set the
      id the name is the placeholder: later renames are forgotten too. */
  lemma {:induction false} ForgetFold(history: seq<CustomerEvent>)
    ensures Fold(ForgetAll(history)).id == Fold(history).id
    ensures Fold(ForgetAll(history)).email == Fold(history).email
    ensures Fold(history).id.Some? ==> Fold(ForgetAll(history)).name == Some(ForgottenName)
  {
    if history != [] {
      var init := history[..|history| - 1];
      var last := history[|history| - 1];
      ForgetFold(init);
      var f := ForgetAll(history);
      assert f[..|f| - 1] == ForgetAll(init);
      assert f[|f| - 1] == ForgetEvent(last);
      assert Fold(f) == Apply(Fold(ForgetAll(init)), ForgetEvent(last));
      assert Fold(history) == Apply(Fold(init), last);
      ForgetApply(Fold(init), Fold(ForgetAll(init)), last);
    }
  }

  /** Forgetting one event keeps a builder's id and email in step with the
      original, and the name at the placeholder once the id is set. */
  lemma ForgetApply(b: CustomerBuilder, forgotten: CustomerBuilder, e: CustomerEvent)
    requires forgotten.id == b.id && forgotten.email == b.email
    requires b.id.Some? ==> forgotten.name == Some(ForgottenName)
    ensures var b', f' := Apply(b, e), Apply(forgotten, ForgetEvent(e));
      f'.id == b'.id && f'.email == b'.email && (b'.id.Some? ==> f'.name == Some(ForgottenName))
  {
  }

  /** After forget a hydrated customer reads "[forgotten]" and keeps its email. */
  lemma ForgetHydrates(history: seq<CustomerEvent>)
    requires Hydrate(history).Ok?
    ensures Hydrate(ForgetAll(history)) == Ok(Hydrate(history).value.(name := ForgottenName))
  {
    var b := Fold(history);
    ForgetFold(history);
    var b2 := Fold(ForgetAll(history));
    assert b2 == CustomerBuilder(b.id, Some(ForgottenName), b.email);
  }

  datatype NewCustomer = NewCustomer(id: CustomerId, name: string, email: string)

  /** `into_events`: one `Initialized` event with the name set. */
  function IntoEvents(c: NewCustomer): (r: EntityEvents<CustomerEvent>)
    ensures r.entityId == c.id && r.All() == [Initialized(c.id, Set(c.name), c.email)]
  {
    Init(c.id, [Initialized(c.id, Set(c.name), c.email)])
  }

  /** Hydrating a new customer's events gives back its fields. */
  lemma NewCustomerRoundTrip(c: NewCustomer)
    ensures Hydrate(IntoEvents(c).All()) == Ok(CustomerState(c.id, c.name, c.email))
  {
    assert [Initialized(c.id, Set(c.name), c.email)][..0] == [];
  }

  class Customer {
    var id: CustomerId
    var name: string
    var email: string
    var events: EntityEvents<CustomerEvent>

    constructor (state: CustomerState, events: EntityEvents<CustomerEvent>)
      ensures id == state.id && name == state.name && email == state.email && this.events == events
    {
      id := state.id;
      name := state.name;
      email := state.email;
      this.events := events;
    }

    /** `update_name`: unguarded; always executes and pushes one event. */
    method UpdateName(newName: string) returns (r: Idempotent<()>)
      modifies this
      ensures DidExecute(r)
      ensures name == newName && events == old(events).Push(NameUpdated(Set(newName)))
      ensures id == old(id) && email == old(email)
    {
      name := newName;
      events := events.Push(NameUpdated(Set(newName)));
      return Executed(());
    }

    /** `update_email`: unguarded; always executes and pushes one event. */
    method UpdateEmail(newEmail: string) returns (r: Idempotent<()>)
      modifies this
      ensures DidExecute(r)
      ensures email == newEmail && events == old(events).Push(EmailUpdated(newEmail))
      ensures id == old(id) && name == old(name)
    {
      email := newEmail;
      events := events.Push(EmailUpdated(newEmail));
      return Executed(());
    }
  }

}
