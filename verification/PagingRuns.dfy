/** What a capture slot owes each request, and how captures end over whole runs. */
module PagingRuns {
  import opened Wrappers
  import opened Widths
  import opened Paging

  // ---------------------------------------------------------------- one request

  /** A capture is kept exactly when both readings come before its deadline, the collection
      succeeded and an identity is left; otherwise nothing is kept and no identity is spent. The
      previous capture and its marker are gone either way. */
  lemma CaptureOutcome<S>(s: Slot<S>, scope: S, expires: int, before: int, after: int, collected: Result<FrozenAccount, string>)
    ensures var (s', reply) := Step(s, Capturing(scope, expires, before, after, collected));
            if before < expires && collected.Ok? && after < expires && s.last < U64_MAX then
              var capture := Capture(s.last + 1, scope, collected.value, expires);
              && s' == Slot(s.pageBytes, s.last + 1, Some(capture), None)
              && reply.Served? && reply.page.snapshot == s.last + 1 && reply.page.offset == 0
              && reply.page == capture.PageAt(0, s.pageBytes)
            else
              && s' == Slot(s.pageBytes, s.last, None, None)
              && reply == if before >= expires then Refusal(Expired)
                          else if collected.Err? then CollectFailed(collected.error)
                          else if after >= expires then Refusal(Expired)
                          else Refusal(SnapshotsExhausted)
  {
  }

  /** The slot holds the capture this request names, by its snapshot and from its scope. */
  predicate IsNamed<S(==)>(s: Slot<S>, scope: S, cursor: PageCursor) {
    s.current.Some? && s.current.value.snapshot == cursor.snapshot > 0 && s.current.value.scope == scope
  }

  /** A page is served exactly for a request that names the held capture, before its deadline and
      the request's own, at an offset inside the account. */
  lemma ServedExactlyWhen<S>(s: Slot<S>, scope: S, cursor: PageCursor, requestExpires: int, now: int)
    ensures Step(s, Event.Paging(scope, cursor, requestExpires, now)).1.Served?
            <==> && IsNamed(s, scope, cursor)
                 && now < s.current.value.expires && now < requestExpires
                 && cursor.offset < |s.current.value.account.bytes|
  {
  }

  /** A request that names the held capture lowers its deadline, whatever the answer, and ends it
      when that deadline has come; a request that does not name it changes nothing. */
  lemma PageOutcome<S>(s: Slot<S>, scope: S, cursor: PageCursor, requestExpires: int, now: int)
    ensures var (s', reply) := Step(s, Event.Paging(scope, cursor, requestExpires, now));
            if IsNamed(s, scope, cursor) then
              var held := s.current.value;
              var lowered := if requestExpires < held.expires then requestExpires else held.expires;
              if now >= lowered then
                && s' == Slot(s.pageBytes, s.last, None, Some((held.snapshot, held.scope)))
                && reply == Refusal(Expired)
              else
                && s' == Slot(s.pageBytes, s.last, Some(held.(expires := lowered)), s.ended)
                && reply == if cursor.offset >= |held.account.bytes|
                            then Refusal(OffsetOutOfRange(cursor.offset, |held.account.bytes|))
                            else Served(held.PageAt(cursor.offset, s.pageBytes))
            else
              && s' == s && reply.Refusal?
              && (cursor.snapshot == 0 ==> reply.error == InvalidCursor(0, cursor.offset))
              && (s.current.Some? && s.current.value.snapshot == cursor.snapshot > 0 ==>
                    reply.error == ScopeChanged(cursor.snapshot))
  {
  }

  /** A discard ends whatever is held, an expiry exactly what has reached its deadline; both leave
      the marker and spend no identity. */
  lemma EndOutcome<S>(s: Slot<S>, now: int)
    ensures Step(s, Discarding)
            == (if s.current.None? then s
                else Slot(s.pageBytes, s.last, None, Some((s.current.value.snapshot, s.current.value.scope))), Quiet)
    ensures Step(s, Expiring(now))
            == if s.current.Some? && s.current.value.expires <= now then Step(s, Discarding) else (s, Quiet)
  {
  }

  // ---------------------------------------------------------------- how a capture ends

  ghost predicate NoCaptureIn<S>(events: seq<Event<S>>, i: nat, n: nat)
    requires n <= |events|
  {
    forall k | i < k < n :: !events[k].Capturing?
  }

  function SnapshotOf<S(==)>(pageBytes: nat, events: seq<Event<S>>, i: nat): u64
    requires i < |events| && Captured(pageBytes, events, i)
  {
    ReplyAt(pageBytes, events, i).page.snapshot
  }

  /** Until the next capture, the slot holds the one event `i` made or remembers how it ended. */
  lemma {:induction false} HeldOrMarked<S>(pageBytes: nat, events: seq<Event<S>>, i: nat, n: nat)
    requires i < n <= |events| && Captured(pageBytes, events, i) && NoCaptureIn(events, i, n)
    ensures var s, snapshot := StateAt(pageBytes, events, n), SnapshotOf(pageBytes, events, i);
            if s.current.Some? then
              s.current.value.snapshot == snapshot && s.current.value.scope == events[i].scope
            else
              s.ended == Some((snapshot, events[i].scope))
    decreases n
  {
    if n > i + 1 { HeldOrMarked(pageBytes, events, i, n - 1); }
  }

  /** The slot can serve no page of this snapshot, now or ever. */
  predicate Gone<S>(s: Slot<S>, snapshot: u64) {
    snapshot <= s.last && (s.current.Some? ==> s.current.value.snapshot != snapshot)
  }

  lemma GoneNext<S>(s: Slot<S>, e: Event<S>, snapshot: u64)
    requires Gone(s, snapshot)
    ensures Gone(Step(s, e).0, snapshot)
    ensures Step(s, e).1.Served? ==> Step(s, e).1.page.snapshot != snapshot
  {
  }

  lemma {:induction false} GoneStays<S>(pageBytes: nat, events: seq<Event<S>>, snapshot: u64, d: nat, n: nat)
    requires d <= n <= |events| && Gone(StateAt(pageBytes, events, d), snapshot)
    ensures Gone(StateAt(pageBytes, events, n), snapshot)
    decreases n
  {
    if d < n {
      GoneStays(pageBytes, events, snapshot, d, n - 1);
      GoneNext(StateAt(pageBytes, events, n - 1), events[n - 1], snapshot);
    }
  }

  /** Event `d` ends whatever is held: a discard, an expiry at or past its deadline, or a request
      answered as expired. */
  predicate Ends<S(==)>(pageBytes: nat, events: seq<Event<S>>, d: nat, snapshot: u64)
    requires d < |events|
  {
    var s := StateAt(pageBytes, events, d);
    match events[d]
    case Discarding => true
    case Expiring(now) => s.current.Some? ==> now >= s.current.value.expires
    case Paging(_, cursor, _, _) => cursor.snapshot == snapshot && ReplyAt(pageBytes, events, d) == Refusal(Expired)
    case Capturing(_, _, _, _, _) => false
  }

  lemma SnapshotIsPast<S>(pageBytes: nat, events: seq<Event<S>>, i: nat, n: nat)
    requires i < n <= |events| && Captured(pageBytes, events, i)
    ensures 0 < SnapshotOf(pageBytes, events, i) <= StateAt(pageBytes, events, n).last
  {
    LastNeverFalls(pageBytes, events, i + 1, n);
  }

  lemma EndsIt<S>(pageBytes: nat, events: seq<Event<S>>, i: nat, d: nat)
    requires i < d < |events| && Captured(pageBytes, events, i)
    requires Ends(pageBytes, events, d, SnapshotOf(pageBytes, events, i))
    ensures Gone(StateAt(pageBytes, events, d + 1), SnapshotOf(pageBytes, events, i))
  {
    SnapshotIsPast(pageBytes, events, i, d);
    SlotStaysSound(pageBytes, events, d);
  }

  /** Once a capture was discarded, expired or refused as expired, no page of it is served again;
      until the next capture, a request for it is told so: expired from its own scope, and a
      changed scope from any other. */
  lemma EndedForGood<S>(pageBytes: nat, events: seq<Event<S>>, i: nat, d: nat, j: nat)
    requires i < d < j < |events| && Captured(pageBytes, events, i)
    requires Ends(pageBytes, events, d, SnapshotOf(pageBytes, events, i))
    ensures ReplyAt(pageBytes, events, j).Served? ==>
              ReplyAt(pageBytes, events, j).page.snapshot != SnapshotOf(pageBytes, events, i)
    ensures NoCaptureIn(events, i, j) && events[j].Paging? && events[j].cursor.snapshot == SnapshotOf(pageBytes, events, i) ==>
              ReplyAt(pageBytes, events, j)
              == Refusal(if events[j].scope == events[i].scope then Expired else ScopeChanged(SnapshotOf(pageBytes, events, i)))
  {
    var snapshot := SnapshotOf(pageBytes, events, i);
    EndsIt(pageBytes, events, i, d);
    GoneStays(pageBytes, events, snapshot, d + 1, j);
    GoneNext(StateAt(pageBytes, events, j), events[j], snapshot);
    SnapshotIsPast(pageBytes, events, i, j);
    if NoCaptureIn(events, i, j) { HeldOrMarked(pageBytes, events, i, j); }
  }

  /** Neither held nor remembered. */
  predicate Forgotten<S>(s: Slot<S>, snapshot: u64) {
    && snapshot <= s.last
    && (s.current.Some? ==> s.current.value.snapshot > snapshot)
    && (s.ended.Some? ==> s.ended.value.0 > snapshot)
  }

  lemma {:induction false} ForgottenStays<S>(pageBytes: nat, events: seq<Event<S>>, snapshot: u64, d: nat, n: nat)
    requires d <= n <= |events| && Forgotten(StateAt(pageBytes, events, d), snapshot)
    ensures Forgotten(StateAt(pageBytes, events, n), snapshot)
    decreases n
  {
    if d < n { ForgottenStays(pageBytes, events, snapshot, d, n - 1); }
  }

  /** Once another capture was asked for, whatever came of it, the earlier snapshot is unknown. */
  lemma SupersededIsUnknown<S>(pageBytes: nat, events: seq<Event<S>>, i: nat, c: nat, j: nat)
    requires i < c < j < |events| && Captured(pageBytes, events, i) && events[c].Capturing?
    requires events[j].Paging? && events[j].cursor.snapshot == SnapshotOf(pageBytes, events, i)
    ensures ReplyAt(pageBytes, events, j) == Refusal(UnknownSnapshot(SnapshotOf(pageBytes, events, i)))
  {
    var snapshot := SnapshotOf(pageBytes, events, i);
    SnapshotIsPast(pageBytes, events, i, c);
    assert Forgotten(StateAt(pageBytes, events, c + 1), snapshot);
    ForgottenStays(pageBytes, events, snapshot, c + 1, j);
  }

  /** The held deadline is the capture's own or that of a request that named it since, so a page
      is refused as expired only at or past a deadline somebody gave. */
  lemma {:induction false} HeldDeadlineIsGiven<S>(pageBytes: nat, events: seq<Event<S>>, i: nat, n: nat)
    requires i < n <= |events| && Captured(pageBytes, events, i) && NoCaptureIn(events, i, n)
    requires StateAt(pageBytes, events, n).current.Some?
    ensures var held := StateAt(pageBytes, events, n).current.value;
            || held.expires == events[i].expires
            || exists k :: i < k < n && Names(pageBytes, events, i, k) && held.expires == events[k].requestExpires
    decreases n
  {
    if n > i + 1 {
      HeldOrMarked(pageBytes, events, i, n - 1);
      HeldDeadlineIsGiven(pageBytes, events, i, n - 1);
      var before, after := StateAt(pageBytes, events, n - 1).current.value, StateAt(pageBytes, events, n).current.value;
      if after.expires != before.expires {
        assert Names(pageBytes, events, i, n - 1) && after.expires == events[n - 1].requestExpires;
      }
    }
  }
}
