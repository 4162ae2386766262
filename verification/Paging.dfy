/** Pages of a frozen account, and the responder's capture slot over whole runs. */
module Paging {
  import opened Wrappers
  import opened Widths
  import opened Digests

  const MAX_PAGE_BYTES := 65_536

  datatype ObservationPage = ObservationPage(
    snapshot: u64, offset: u64, total: u64, sha256: Digest, bytes: string, complete: bool)

  datatype PageFault =
    | ZeroSnapshot
    | ZeroTotal
    | EmptyBytes
    | TooManyBytes(len: nat)
    | OffsetOverflow(offset: u64, len: nat)
    | BeyondTotal(end: nat, total: u64)
    | CompleteFlag(stated: bool, actual: bool)

  /** `ObservationPage::check`: the first broken rule of one page. */
  function Check(page: ObservationPage): Option<PageFault> {
    var len := |page.bytes|;
    var end := page.offset + len;
    if page.snapshot == 0 then Some(ZeroSnapshot)
    else if page.total == 0 then Some(ZeroTotal)
    else if len == 0 then Some(EmptyBytes)
    else if len > MAX_PAGE_BYTES then Some(TooManyBytes(len))
    else if end > U64_MAX then Some(OffsetOverflow(page.offset, len))
    else if end > page.total then Some(BeyondTotal(end, page.total))
    else if page.complete != (end == page.total) then Some(CompleteFlag(page.complete, end == page.total))
    else None
  }

  /** One encoded account with its hash; its bytes never change. */
  datatype Account = Account(bytes: string, sha256: Digest)

  type FrozenAccount = a: Account | a.sha256 == Sha256(a.bytes) && 1 <= |a.bytes| <= U64_MAX
    witness Account("0", Sha256("0"))

  datatype PageCursor = PageCursor(snapshot: u64, offset: u64)

  const START := PageCursor(0, 0)

  datatype Capture<S> = Capture(snapshot: u64, scope: S, account: FrozenAccount, expires: int) {
    function PageAt(offset: u64, pageBytes: nat): ObservationPage
      requires offset <= |account.bytes|
    {
      var end := Min(|account.bytes|, offset + pageBytes);
      ObservationPage(snapshot, offset, |account.bytes|, account.sha256,
                      account.bytes[offset..end], end == |account.bytes|)
    }
  }

  datatype PagingError =
    | InvalidCursor(snapshot: u64, offset: u64)
    | UnknownSnapshot(snapshot: u64)
    | ScopeChanged(snapshot: u64)
    | OffsetOutOfRange(offset: u64, total: nat)
    | Expired
    | SnapshotsExhausted

  datatype Slot<S> = Slot(
    pageBytes: nat, last: u64, current: Option<Capture<S>>, ended: Option<(u64, S)>)

  /** What a slot is asked, with the clock readings and the collection's outcome as inputs. */
  datatype Event<S> =
    | Capturing(scope: S, expires: int, before: int, after: int, collected: Result<FrozenAccount, string>)
    | Paging(scope: S, cursor: PageCursor, requestExpires: int, now: int)
    | Expiring(now: int)
    | Discarding

  datatype Reply = Served(page: ObservationPage) | Refusal(error: PagingError) | CollectFailed(cause: string) | Quiet

  function Fresh<S>(pageBytes: nat): Slot<S> {
    Slot(pageBytes, 0, None, None)
  }

  function Ended<S>(s: Slot<S>): Slot<S> {
    if s.current.Some? then
      s.(current := None, ended := Some((s.current.value.snapshot, s.current.value.scope)))
    else
      s
  }

  function CaptureStep<S>(s: Slot<S>, e: Event<S>): (Slot<S>, Reply)
    requires e.Capturing?
  {
    var empty := s.(current := None, ended := None);
    if e.before >= e.expires then (empty, Refusal(Expired))
    else if e.collected.Err? then (empty, CollectFailed(e.collected.error))
    else if e.after >= e.expires then (empty, Refusal(Expired))
    else if s.last == U64_MAX then (empty, Refusal(SnapshotsExhausted))
    else
      var capture := Capture(s.last + 1, e.scope, e.collected.value, e.expires);
      (empty.(last := s.last + 1, current := Some(capture)), Served(capture.PageAt(0, s.pageBytes)))
  }

  function PageStep<S(==)>(s: Slot<S>, e: Event<S>): (Slot<S>, Reply)
    requires e.Paging?
  {
    var PageCursor(snapshot, offset) := e.cursor;
    if snapshot == 0 then
      (s, Refusal(InvalidCursor(snapshot, offset)))
    else if s.current.None? || s.current.value.snapshot != snapshot then
      if s.ended.Some? && s.ended.value.0 == snapshot then
        (s, Refusal(if s.ended.value.1 != e.scope then ScopeChanged(snapshot) else Expired))
      else
        (s, Refusal(UnknownSnapshot(snapshot)))
    else if s.current.value.scope != e.scope then
      (s, Refusal(ScopeChanged(snapshot)))
    else
      var held := s.current.value.(expires := Min(s.current.value.expires, e.requestExpires));
      var lowered := s.(current := Some(held));
      if e.now >= held.expires then (Ended(lowered), Refusal(Expired))
      else if offset >= |held.account.bytes| then (lowered, Refusal(OffsetOutOfRange(offset, |held.account.bytes|)))
      else (lowered, Served(held.PageAt(offset, s.pageBytes)))
  }

  function Step<S(==)>(s: Slot<S>, e: Event<S>): (Slot<S>, Reply) {
    match e
    case Capturing(_, _, _, _, _) => CaptureStep(s, e)
    case Paging(_, _, _, _) => PageStep(s, e)
    case Expiring(now) => (if s.current.Some? && now >= s.current.value.expires then Ended(s) else s, Quiet)
    case Discarding => (Ended(s), Quiet)
  }

  // ---------------------------------------------------------------- the slot, updated in place

  class CaptureSlot<S(==)> {
    const pageBytes: nat
    var lastSnapshot: u64
    var current: Option<Capture<S>>
    var ended: Option<(u64, S)>

    ghost function View(): Slot<S>
      reads this
    {
      Slot(pageBytes, lastSnapshot, current, ended)
    }

    constructor (pageBytes: nat)
      requires 1 <= pageBytes <= MAX_PAGE_BYTES
      ensures View() == Fresh(pageBytes)
    {
      this.pageBytes := pageBytes;
      lastSnapshot, current, ended := 0, None, None;
    }

    method End()
      modifies this`current, this`ended
      ensures View() == Ended(old(View()))
    {
      if current.Some? {
        ended := Some((current.value.snapshot, current.value.scope));
        current := None;
      }
    }

    method TakeCapture(scope: S, expires: int, before: int, collected: Result<FrozenAccount, string>, after: int)
      returns (reply: Reply)
      modifies this`lastSnapshot, this`current, this`ended
      ensures (View(), reply) == Step(old(View()), Capturing(scope, expires, before, after, collected))
    {
      current, ended := None, None;
      if before >= expires {
        return Refusal(Expired);
      }
      if collected.Err? {
        return CollectFailed(collected.error);
      }
      if after >= expires {
        return Refusal(Expired);
      }
      if lastSnapshot == U64_MAX {
        return Refusal(SnapshotsExhausted);
      }
      lastSnapshot := lastSnapshot + 1;
      var capture := Capture(lastSnapshot, scope, collected.value, expires);
      current := Some(capture);
      reply := Served(capture.PageAt(0, pageBytes));
    }

    method Page(scope: S, cursor: PageCursor, requestExpires: int, now: int) returns (reply: Reply)
      modifies this`current, this`ended
      ensures (View(), reply) == Step(old(View()), Event.Paging(scope, cursor, requestExpires, now))
    {
      var snapshot, offset := cursor.snapshot, cursor.offset;
      if snapshot == 0 {
        return Refusal(InvalidCursor(snapshot, offset));
      }
      if current.None? || current.value.snapshot != snapshot {
        if ended.Some? && ended.value.0 == snapshot {
          return Refusal(if ended.value.1 != scope then ScopeChanged(snapshot) else Expired);
        }
        return Refusal(UnknownSnapshot(snapshot));
      }
      if current.value.scope != scope {
        return Refusal(ScopeChanged(snapshot));
      }
      var held := current.value.(expires := Min(current.value.expires, requestExpires));
      current := Some(held);
      if now >= held.expires {
        End();
        return Refusal(Expired);
      }
      var total := |held.account.bytes|;
      if offset >= total {
        return Refusal(OffsetOutOfRange(offset, total));
      }
      reply := Served(held.PageAt(offset, pageBytes));
    }

    method Expire(now: int)
      modifies this`current, this`ended
      ensures (View(), Quiet) == Step(old(View()), Expiring(now))
    {
      if current.Some? && now >= current.value.expires {
        End();
      }
    }

    method Discard()
      modifies this`current, this`ended
      ensures (View(), Quiet) == Step(old(View()), Discarding)
    {
      End();
    }
  }

  /** `CaptureSlot::with_page_bytes`: any size outside 1 to the maximum is refused. */
  method WithPageBytes<S(==)>(pageBytes: nat) returns (r: Result<CaptureSlot<S>, nat>)
    ensures r.Ok? <==> 1 <= pageBytes <= MAX_PAGE_BYTES
    ensures r.Ok? ==> fresh(r.value) && r.value.View() == Fresh(pageBytes)
    ensures r.Err? ==> r.error == pageBytes
  {
    if !(1 <= pageBytes <= MAX_PAGE_BYTES) {
      return Err(pageBytes);
    }
    var slot := new CaptureSlot(pageBytes);
    r := Ok(slot);
  }

  // ---------------------------------------------------------------- one page

  /** A page passes its check exactly when it is a nonempty, bounded piece of its account. */
  lemma CheckMeansPiece(page: ObservationPage)
    ensures Check(page).None?
            <==> && page.snapshot > 0 && page.total > 0 && 1 <= |page.bytes| <= MAX_PAGE_BYTES
                 && page.offset + |page.bytes| <= page.total
                 && (page.complete <==> page.offset + |page.bytes| == page.total)
  {
  }

  /** Each fault means its rule is broken and the rules before it hold. */
  lemma CheckNamesFirstRule(page: ObservationPage)
    ensures var len, end := |page.bytes|, page.offset + |page.bytes|;
            match Check(page)
            case None => true
            case Some(fault) =>
              match fault
              case ZeroSnapshot => page.snapshot == 0
              case ZeroTotal => page.total == 0 < page.snapshot
              case EmptyBytes => len == 0 < page.total && 0 < page.snapshot
              case TooManyBytes(n) => n == len > 65_536 && 0 < page.total && 0 < page.snapshot
              case OffsetOverflow(offset, n) =>
                offset == page.offset && n == len && U64_MAX < end && 1 <= len <= 65_536 && 0 < page.total && 0 < page.snapshot
              case BeyondTotal(e, total) =>
                e == end > total == page.total && end <= U64_MAX && 1 <= len <= 65_536 && 0 < total && 0 < page.snapshot
              case CompleteFlag(stated, actual) =>
                && stated == page.complete != actual == (end == page.total)
                && end <= page.total && 1 <= len <= 65_536 && 0 < page.snapshot
  {
  }

  /** Every page a slot cuts passes the check, carries the account's bytes and says so. */
  lemma CutPagePasses<S>(c: Capture<S>, offset: u64, pageBytes: nat)
    requires c.snapshot > 0 && offset < |c.account.bytes| && 1 <= pageBytes <= MAX_PAGE_BYTES
    ensures var page := c.PageAt(offset, pageBytes);
            && Check(page).None?
            && page.bytes == c.account.bytes[offset..offset + |page.bytes|]
            && |page.bytes| == Min(pageBytes, |c.account.bytes| - offset)
  {
  }

  // ---------------------------------------------------------------- whole runs

  /** The slot before event `n` of a run from a new slot. */
  function StateAt<S(==)>(pageBytes: nat, events: seq<Event<S>>, n: nat): Slot<S>
    requires n <= |events|
  {
    if n == 0 then Fresh(pageBytes) else Step(StateAt(pageBytes, events, n - 1), events[n - 1]).0
  }

  function ReplyAt<S(==)>(pageBytes: nat, events: seq<Event<S>>, n: nat): Reply
    requires n < |events|
  {
    Step(StateAt(pageBytes, events, n), events[n]).1
  }

  predicate SoundSlot<S>(s: Slot<S>) {
    && (s.current.Some? ==> s.ended.None? && s.current.value.snapshot == s.last && 0 < s.last)
    && (s.ended.Some? ==> s.ended.value.0 == s.last)
  }

  /** A capture and an ended marker never coexist, and the held capture is the newest. */
  lemma {:induction false} SlotStaysSound<S>(pageBytes: nat, events: seq<Event<S>>, n: nat)
    requires n <= |events|
    ensures SoundSlot(StateAt(pageBytes, events, n))
    ensures StateAt(pageBytes, events, n).pageBytes == pageBytes
  {
    if n > 0 { SlotStaysSound(pageBytes, events, n - 1); }
  }

  lemma {:induction false} LastNeverFalls<S>(pageBytes: nat, events: seq<Event<S>>, i: nat, j: nat)
    requires i <= j <= |events|
    ensures StateAt(pageBytes, events, i).last <= StateAt(pageBytes, events, j).last
    decreases j
  {
    if i < j { LastNeverFalls(pageBytes, events, i, j - 1); }
  }

  /** Event `i` answered a capture with its first page. */
  predicate Captured<S(==)>(pageBytes: nat, events: seq<Event<S>>, i: nat)
    requires i < |events|
  {
    events[i].Capturing? && ReplyAt(pageBytes, events, i).Served?
  }

  /** Snapshot identities strictly increase over a run, so none is reused and none wraps. */
  lemma SnapshotsIncrease<S>(pageBytes: nat, events: seq<Event<S>>, i: nat, j: nat)
    requires i < j < |events| && Captured(pageBytes, events, i) && Captured(pageBytes, events, j)
    ensures 0 < ReplyAt(pageBytes, events, i).page.snapshot < ReplyAt(pageBytes, events, j).page.snapshot
  {
    LastNeverFalls(pageBytes, events, i + 1, j);
  }

  /** Only a new capture changes what is held; within one capture the deadline only falls. */
  lemma HeldDeadlineFalls<S>(s: Slot<S>, e: Event<S>)
    requires s.current.Some? && Step(s, e).0.current.Some? && !e.Capturing?
    ensures var before, after := s.current.value, Step(s, e).0.current.value;
            after == before.(expires := after.expires) && after.expires <= before.expires
  {
  }

  /** A request that names the capture made at event `i`: its snapshot, from its scope. */
  predicate Names<S(==)>(pageBytes: nat, events: seq<Event<S>>, i: nat, k: nat)
    requires i < |events| && k < |events| && Captured(pageBytes, events, i)
  {
    && events[k].Paging?
    && events[k].cursor.snapshot == ReplyAt(pageBytes, events, i).page.snapshot
    && events[k].scope == events[i].scope
  }

  /** The held capture is the one event `i` made, under every deadline given since. */
  ghost predicate HeldSince<S>(pageBytes: nat, events: seq<Event<S>>, i: nat, n: nat)
    requires i < n <= |events|
  {
    var held := StateAt(pageBytes, events, n).current;
    && Captured(pageBytes, events, i)
    && held.Some?
    && events[i].collected == Ok(held.value.account)
    && held.value.snapshot == ReplyAt(pageBytes, events, i).page.snapshot
    && held.value.scope == events[i].scope
    && held.value.expires <= events[i].expires
    && forall k | i < k < n && Names(pageBytes, events, i, k) :: held.value.expires <= events[k].requestExpires
  }

  lemma HeldOneMore<S>(pageBytes: nat, events: seq<Event<S>>, i: nat, n: nat)
    requires i < n < |events| && HeldSince(pageBytes, events, i, n)
    requires StateAt(pageBytes, events, n + 1).current.Some? && !events[n].Capturing?
    ensures HeldSince(pageBytes, events, i, n + 1)
  {
    HeldDeadlineFalls(StateAt(pageBytes, events, n), events[n]);
  }

  lemma {:induction false} HeldHasOrigin<S>(pageBytes: nat, events: seq<Event<S>>, n: nat) returns (i: nat)
    requires n <= |events| && StateAt(pageBytes, events, n).current.Some?
    ensures i < n && HeldSince(pageBytes, events, i, n)
  {
    if events[n - 1].Capturing? {
      i := n - 1;
    } else {
      i := HeldHasOrigin(pageBytes, events, n - 1);
      HeldOneMore(pageBytes, events, i, n - 1);
    }
  }

  lemma OriginIsUnique<S>(pageBytes: nat, events: seq<Event<S>>, i: nat, k: nat)
    requires i < |events| && k < |events| && Captured(pageBytes, events, i) && Captured(pageBytes, events, k)
    requires ReplyAt(pageBytes, events, i).page.snapshot == ReplyAt(pageBytes, events, k).page.snapshot
    ensures i == k
  {
    if i < k {
      SnapshotsIncrease(pageBytes, events, i, k);
    } else if k < i {
      SnapshotsIncrease(pageBytes, events, k, i);
    }
  }

  /** Whatever happened before, a served page is cut from the account its capture froze, and it
      is served before the capture's deadline and before every deadline given since by a request
      that named the capture, its own included. */
  lemma PagesServedInTime<S>(pageBytes: nat, events: seq<Event<S>>, i: nat, j: nat)
    requires i < |events| && j < |events| && Captured(pageBytes, events, i)
    requires events[j].Paging? && ReplyAt(pageBytes, events, j).Served?
    requires ReplyAt(pageBytes, events, j).page.snapshot == ReplyAt(pageBytes, events, i).page.snapshot
    ensures i < j && events[j].scope == events[i].scope && events[i].collected.Ok?
    ensures events[j].cursor.offset < |events[i].collected.value.bytes|
    ensures ReplyAt(pageBytes, events, j).page
            == Capture(events[j].cursor.snapshot, events[i].scope, events[i].collected.value, events[i].expires)
               .PageAt(events[j].cursor.offset, pageBytes)
    ensures events[j].now < events[i].expires
    ensures forall k | i < k <= j && Names(pageBytes, events, i, k) :: events[j].now < events[k].requestExpires
  {
    var o := HeldHasOrigin(pageBytes, events, j);
    SlotStaysSound(pageBytes, events, j);
    OriginIsUnique(pageBytes, events, i, o);
  }
}
