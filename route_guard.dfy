/**
 * The route guard that wraps every dashboard page.
 *
 * On mount it starts one asynchronous check. The check asks the server for
 * the current user; once that answer arrives it falls back, when needed, to
 * the client-side session cookie. State updates are skipped once the guard
 * has unmounted. While loading it shows a placeholder. Afterwards it either
 * redirects to the login page or renders the protected page.
 *
 * The asynchronous check is an event, `Settle`, that carries what the server
 * answered and the cookie header at the moment the check resumed.
 * Unmounting is the other event.
 */
module RouteGuard {
  import opened JsValues
  import opened Session

  /** What the guard renders. */
  datatype View = Placeholder | RedirectToLogin | Children

  /** `loading` and `authed` are the component's state; `mounted` is the flag
      the effect's cleanup clears; `settled` records that the one
      continuation of the asynchronous check has run. */
  datatype GuardState = GuardState(loading: bool, authed: bool, mounted: bool, settled: bool)

  /** Right after mounting: loading, not authenticated, check pending. */
  const Initial := GuardState(true, false, true, false)

  datatype Event =
    | Settle(response: MeResponse, cookie: string)
    | Unmount

  /** The guard's output for a state. */
  function Render(s: GuardState): (v: View)
    ensures v == Placeholder <==> s.loading
    ensures v == RedirectToLogin <==> !s.loading && !s.authed
    ensures v == Children <==> !s.loading && s.authed
  {
    if s.loading then Placeholder
    else if !s.authed then RedirectToLogin
    else Children
  }

  /** The body of the check once the server call has returned. The try block
      either accepts the server's user or copies the cookie's verdict. When
      reading the cookie throws, the catch block reads it again and throws
      again, so `authed` keeps its value. `finally` then ends loading, but
      only while mounted. */
  function Resumed(s: GuardState, response: MeResponse, cookie: string,
                   decode: string -> Option<string>): (r: GuardState)
    ensures r.settled && r.mounted == s.mounted
    ensures !s.mounted ==> r.loading == s.loading && r.authed == s.authed
    ensures s.mounted ==> !r.loading
    ensures s.mounted && ValidateWithServer(response).Some? ==> r.authed
    ensures s.mounted && ValidateWithServer(response).None? ==>
              match IsAuthenticated(cookie, decode)
              case Returned(b) => r.authed == b
              case Threw => r.authed == s.authed
  {
    var s' := s.(settled := true);
    if !s.mounted then s'
    else if ValidateWithServer(response).Some? then s'.(authed := true, loading := false)
    else match IsAuthenticated(cookie, decode)
         case Returned(b) => s'.(authed := b, loading := false)
         case Threw => s'.(loading := false)
  }

  /** One event. The continuation runs once, so a second `Settle` changes
      nothing. */
  function Step(s: GuardState, e: Event, decode: string -> Option<string>): (r: GuardState)
    ensures e.Unmount? ==> r == s.(mounted := false)
    ensures e.Settle? && s.settled ==> r == s
    ensures e.Settle? && !s.settled ==> r == Resumed(s, e.response, e.cookie, decode)
  {
    match e
    case Unmount => s.(mounted := false)
    case Settle(response, cookie) =>
      if s.settled then s else Resumed(s, response, cookie, decode)
  }

  /** The state after a sequence of events, in order. */
  function Run(s: GuardState, events: seq<Event>, decode: string -> Option<string>): GuardState
    decreases |events|
  {
    if events == [] then s else Run(Step(s, events[0], decode), events[1..], decode)
  }

  // ---------------------------------------------------------------------------
  // What the guard promises
  // ---------------------------------------------------------------------------

  /** A settle event that vouches for the user: the server accepted the
      session, or the cookie holds a non-empty email. */
  predicate Vouches(e: Event, decode: string -> Option<string>)
  {
    e.Settle? && (ValidateWithServer(e.response).Some? || IsAuthenticated(e.cookie, decode) == Returned(true))
  }

  /** The check on a mounted guard: afterwards the page renders exactly when
      the server or the cookie vouches for the user, and the guard redirects
      otherwise. That includes a body that is not JSON and a cookie that
      does not decode. */
  lemma SettleDecides(response: MeResponse, cookie: string, decode: string -> Option<string>)
    ensures var v := Render(Step(Initial, Settle(response, cookie), decode));
            (v == Children <==> Vouches(Settle(response, cookie), decode))
            && (v == RedirectToLogin <==> !Vouches(Settle(response, cookie), decode))
  {
    var s := Step(Initial, Settle(response, cookie), decode);
    if ValidateWithServer(response).None? {
      match IsAuthenticated(cookie, decode)
      case Returned(b) => assert s.authed == b;
      case Threw => assert !s.authed;
    }
  }

  /** A rendered page is always backed by an event that vouched for the
      user: starting signed out, `authed` becomes true only through one. */
  lemma {:induction false} AccessNeedsVouching(s: GuardState, events: seq<Event>, decode: string -> Option<string>)
    ensures Run(s, events, decode).authed ==>
              s.authed || exists i :: 0 <= i < |events| && Vouches(events[i], decode)
    decreases |events|
  {
    if events != [] {
      var s1 := Step(s, events[0], decode);
      AccessNeedsVouching(s1, events[1..], decode);
      if Run(s, events, decode).authed && !s.authed {
        if s1.authed {
          assert Vouches(events[0], decode);
        } else {
          var i :| 0 <= i < |events[1..]| && Vouches(events[1..][i], decode);
          assert events[i + 1] == events[1..][i];
        }
      }
    }
  }

  /** From the initial state, the page renders only after a vouching event. */
  lemma ChildrenNeedVouching(events: seq<Event>, decode: string -> Option<string>)
    ensures Render(Run(Initial, events, decode)) == Children ==>
              exists i :: 0 <= i < |events| && Vouches(events[i], decode)
  {
    AccessNeedsVouching(Initial, events, decode);
  }

  /** Once the guard has unmounted its state no longer changes. */
  lemma {:induction false} UnmountFreezes(s: GuardState, events: seq<Event>, decode: string -> Option<string>)
    requires !s.mounted
    ensures Run(s, events, decode).loading == s.loading
    ensures Run(s, events, decode).authed == s.authed
    decreases |events|
  {
    if events != [] {
      UnmountFreezes(Step(s, events[0], decode), events[1..], decode);
    }
  }

  /** Once the check has run, what the guard shows never changes. */
  lemma {:induction false} SettledIsFinal(s: GuardState, events: seq<Event>, decode: string -> Option<string>)
    requires s.settled
    ensures Run(s, events, decode).loading == s.loading
    ensures Run(s, events, decode).authed == s.authed
    decreases |events|
  {
    if events != [] {
      SettledIsFinal(Step(s, events[0], decode), events[1..], decode);
    }
  }

  /** The reachable states: the placeholder never hides an authenticated
      state, nothing ends loading except the check, and a mounted guard whose
      check has run is no longer loading. */
  predicate Inv(s: GuardState)
  {
    (s.loading ==> !s.authed) && (!s.settled ==> s.loading) && (s.settled && s.mounted ==> !s.loading)
  }

  lemma {:induction false} InvPreserved(s: GuardState, events: seq<Event>, decode: string -> Option<string>)
    requires Inv(s)
    ensures Inv(Run(s, events, decode))
    decreases |events|
  {
    if events != [] {
      var s1 := Step(s, events[0], decode);
      assert Inv(s1);
      InvPreserved(s1, events[1..], decode);
    }
  }

  /** Every state reached from mounting satisfies the invariant; in
      particular a mounted guard whose check has run shows either the page or
      the redirect, never the placeholder. */
  lemma ReachableStates(events: seq<Event>, decode: string -> Option<string>)
    ensures Inv(Run(Initial, events, decode))
    ensures var s := Run(Initial, events, decode);
            s.settled && s.mounted ==> Render(s) != Placeholder
  {
    InvPreserved(Initial, events, decode);
  }

  // ---------------------------------------------------------------------------
  // The component
  // ---------------------------------------------------------------------------

  class ProtectedRoute {
    var loading: bool
    var authed: bool
    var mounted: bool
    var settled: bool

    function State(): GuardState
      reads this
    {
      GuardState(loading, authed, mounted, settled)
    }

    function View(): (v: View)
      reads this
      ensures v == Render(State())
    {
      if loading then Placeholder else if !authed then RedirectToLogin else Children
    }

    /** Mounting: the initial state, with the effect's flag set and the check
        started. */
    constructor()
      ensures State() == Initial
    {
      loading := true;
      authed := false;
      mounted := true;
      settled := false;
    }

    /** The asynchronous check, from the moment the server call returns. */
    method Resume(response: MeResponse, cookie: string, decode: string -> Option<string>)
      requires !settled
      modifies this
      ensures State() == Step(old(State()), Settle(response, cookie), decode)
    {
      settled := true;
      var serverData := ValidateWithServer(response);
      if mounted {
        if serverData.Some? {
          authed := true;
        } else {
          var local := IsAuthenticated(cookie, decode);
          match local
          case Returned(b) =>
            if b {
              authed := true;
            } else {
              authed := false;
            }
          case Threw =>
            // the catch block reads the cookie again, throws again and
            // leaves `authed` as it is
        }
        loading := false;
      }
    }

    /** The effect's cleanup. */
    method Unmount()
      modifies this
      ensures State() == old(State()).(mounted := false)
    {
      mounted := false;
    }
  }
}
