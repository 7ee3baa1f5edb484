/** The `User` test entity: a guarded rename and the fold that hydrates a user
    from its events. */
module UserEntity {
  import opened Wrappers
  import opened Seqs
  import opened Events
  import opened Idempotency
  import opened IdempotencyGuard
  import opened EsErrors

  type UserId = int

  datatype UserEvent = Initialized(id: UserId, name: string) | NameUpdated(name: string)

  /** The duplicate pattern of `update_name`: a rename to exactly `newName`. */
  function IsRenameTo(newName: string): UserEvent -> bool
  {
    (e: UserEvent) => e.NameUpdated? && e.name == newName
  }

  /** The break pattern of `update_name`: any rename. */
  predicate IsRename(e: UserEvent)
  {
    e.NameUpdated?
  }

  /** The guard of `update_name` over the history read latest first. */
  predicate RenameIgnored(history: seq<UserEvent>, newName: string)
  {
    DuplicateBeforeBreak(Reversed(history), IsRenameTo(newName), IsRename)
  }

  /** The name carried by the latest `NameUpdated` event, if any. */
  function LastRename(history: seq<UserEvent>): Option<string>
  {
    if history == [] then None
    else if history[|history| - 1].NameUpdated? then Some(history[|history| - 1].name)
    else LastRename(history[..|history| - 1])
  }

  lemma {:induction false} SkipNeutralHead(s: seq<UserEvent>, newName: string)
    requires |s| > 0 && !IsRenameTo(newName)(s[0]) && !IsRename(s[0])
    ensures DuplicateBeforeBreak(s, IsRenameTo(newName), IsRename)
        <==> DuplicateBeforeBreak(s[1..], IsRenameTo(newName), IsRename)
  {
    var dup, t := IsRenameTo(newName), s[1..];
    if DuplicateBeforeBreak(s, dup, IsRename) {
      var i :| 0 <= i < |s| && dup(s[i]) && NoBreakBefore(s, IsRename, i);
      assert i > 0;
      assert t[i - 1] == s[i];
      assert NoBreakBefore(t, IsRename, i - 1) by {
        forall j | 0 <= j < i - 1 ensures !IsRename(t[j]) {
          assert t[j] == s[j + 1];
        }
      }
    }
    if DuplicateBeforeBreak(t, dup, IsRename) {
      var i :| 0 <= i < |t| && dup(t[i]) && NoBreakBefore(t, IsRename, i);
      assert s[i + 1] == t[i];
      assert NoBreakBefore(s, IsRename, i + 1) by {
        forall j | 0 <= j < i + 1 ensures !IsRename(s[j]) {
          if j > 0 { assert s[j] == t[j - 1]; }
        }
      }
    }
  }

  /** The guard ignores a rename exactly when the latest rename already set the
      same name: the scan stops at the latest `NameUpdated` and `Initialized`
      events are never compared. */
  lemma {:induction false} RenameIgnoredIffLastRename(history: seq<UserEvent>, newName: string)
    ensures RenameIgnored(history, newName) <==> LastRename(history) == Some(newName)
  {
    if history != [] {
      var n := |history|;
      var last, init := history[n - 1], history[..n - 1];
      var rev := Reversed(history);
      assert rev[0] == last;
      assert rev[1..] == Reversed(init) by {
        assert history == init + [last];
        forall k | 0 <= k < |rev| - 1 ensures rev[1..][k] == Reversed(init)[k] { }
      }
      if last.NameUpdated? {
        if last.name == newName {
          assert NoBreakBefore(rev, IsRename, 0);
          assert IsRenameTo(newName)(rev[0]);
        } else {
          BreakFirstProceeds(rev, IsRenameTo(newName), IsRename, 0);
        }
      } else {
        SkipNeutralHead(rev, newName);
        RenameIgnoredIffLastRename(init, newName);
      }
    } else {
      assert Reversed(history) == [];
    }
  }

  /** Renaming twice in a row: the second call is ignored. */
  lemma RenameTwiceIgnored(history: seq<UserEvent>, newName: string)
    ensures RenameIgnored(history + [NameUpdated(newName)], newName)
  {
    RenameIgnoredIffLastRename(history + [NameUpdated(newName)], newName);
  }

  /** A, then B, then A: the third rename executes, since only the latest
      rename is compared. */
  lemma RenameBackExecutes(history: seq<UserEvent>, a: string, b: string)
    requires a != b
    ensures !RenameIgnored(history + [NameUpdated(a)], b)
    ensures !RenameIgnored(history + [NameUpdated(a), NameUpdated(b)], a)
  {
    RenameIgnoredIffLastRename(history + [NameUpdated(a)], b);
    var h2 := history + [NameUpdated(a), NameUpdated(b)];
    assert h2[..|h2| - 1] == history + [NameUpdated(a)];
    RenameIgnoredIffLastRename(h2, a);
  }

  /** Renaming to the name the user was created with executes. */
  lemma RenameToInitialNameExecutes(id: UserId, name: string)
    ensures !RenameIgnored([Initialized(id, name)], name)
  {
    RenameIgnoredIffLastRename([Initialized(id, name)], name);
    assert [Initialized(id, name)][..0] == [];
  }

  /** The derive_builder state threaded through `try_from_events`. */
  datatype UserBuilder = UserBuilder(id: Option<UserId>, name: Option<string>)

  /** One arm of the fold's `match`. */
  function Apply(b: UserBuilder, e: UserEvent): UserBuilder
  {
    match e
    case Initialized(id, name) => UserBuilder(Some(id), Some(name))
    case NameUpdated(name) => b.(name := Some(name))
  }

  /** The builder after folding a history, oldest event first. */
  function Fold(history: seq<UserEvent>): UserBuilder
  {
    if history == [] then UserBuilder(None, None)
    else Apply(Fold(history[..|history| - 1]), history[|history| - 1])
  }

  datatype UserState = UserState(id: UserId, name: string)

  /** `build()`: fields are checked in declaration order, id first. */
  function Build(b: UserBuilder): Result<UserState, EntityHydrationError>
  {
    if b.id.None? then Err(UninitializedFieldError("id"))
    else if b.name.None? then Err(UninitializedFieldError("name"))
    else Ok(UserState(b.id.value, b.name.value))
  }

  /** The hydrated user a history describes. */
  function Hydrate(history: seq<UserEvent>): Result<UserState, EntityHydrationError>
  {
    Build(Fold(history))
  }

  /** `try_from_events`: the builder loop. */
  method TryFromEvents(events: EntityEvents<UserEvent>) returns (r: Result<UserState, EntityHydrationError>)
    ensures r == Hydrate(events.All())
  {
    var all := events.All();
    var builder := UserBuilder(None, None);
    var i := 0;
    while i < |all|
      invariant 0 <= i <= |all|
      invariant builder == Fold(all[..i])
    {
      assert all[..i + 1][..i] == all[..i];
      builder := Apply(builder, all[i]);
      i := i + 1;
    }
    assert all[..|all|] == all;
    r := Build(builder);
  }

  /** Without an `Initialized` event hydration fails on the missing id. */
  lemma {:induction false} HydrationNeedsInitialized(history: seq<UserEvent>)
    requires forall k :: 0 <= k < |history| ==> history[k].NameUpdated?
    ensures Fold(history).id.None?
    ensures Hydrate(history) == Err(UninitializedFieldError("id"))
  {
    if history != [] {
      HydrationNeedsInitialized(history[..|history| - 1]);
    }
  }

  /** Once a user hydrates, the latest rename decides the name and the id stays. */
  lemma LastRenameWins(history: seq<UserEvent>, newName: string)
    requires Hydrate(history).Ok?
    ensures Hydrate(history + [NameUpdated(newName)]) == Ok(Hydrate(history).value.(name := newName))
  {
    assert (history + [NameUpdated(newName)])[..|history|] == history;
  }

  /** `NewUser` */
  datatype NewUser = NewUser(id: UserId, name: string)

  /** `into_events`: a new user becomes one `Initialized` event. */
  function IntoEvents(u: NewUser): (r: EntityEvents<UserEvent>)
    ensures r.entityId == u.id && r.All() == [Initialized(u.id, u.name)]
  {
    Init(u.id, [Initialized(u.id, u.name)])
  }

  /** Hydrating the events of a new user gives back its id and name. */
  lemma NewUserRoundTrip(u: NewUser)
    ensures Hydrate(IntoEvents(u).All()) == Ok(UserState(u.id, u.name))
  {
    assert [Initialized(u.id, u.name)][..0] == [];
  }

  /** `User`: the hydrated fields plus the event history; `update_name`
      changes both. */
  class User {
    var id: UserId
    var name: string
    var events: EntityEvents<UserEvent>

    constructor (state: UserState, events: EntityEvents<UserEvent>)
      ensures id == state.id && name == state.name && this.events == events
    {
      id := state.id;
      name := state.name;
      this.events := events;
    }

    /** `update_name`: ignored when the latest rename already set `newName`;
        otherwise sets the name and pushes one `NameUpdated`. */
    method UpdateName(newName: string) returns (r: Idempotent<()>)
      modifies this
      ensures WasAlreadyApplied(r) <==> LastRename(old(events.All())) == Some(newName)
      ensures WasAlreadyApplied(r) ==> name == old(name) && events == old(events)
      ensures DidExecute(r) ==> name == newName && events == old(events).Push(NameUpdated(newName))
      ensures id == old(id)
    {
      var ignored := GuardWithBreak(Reversed(events.All()), IsRenameTo(newName), IsRename);
      RenameIgnoredIffLastRename(events.All(), newName);
      if ignored {
        return FromAlreadyApplied();
      }
      name := newName;
      events := events.Push(NameUpdated(newName));
      return Executed(());
    }
  }

}
