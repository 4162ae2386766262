/** The caller's half of paging: reassembling an account from a peer that may misbehave. */
module PageAssembly {
  import opened Wrappers
  import opened Widths
  import opened Digests
  import opened Paging

  datatype Started = Started(snapshot: u64, total: u64, sha256: Digest, complete: bool)

  datatype Assembly = Assembly(started: Option<Started>, buffer: string)

  const EMPTY := Assembly(None, "")

  datatype AssemblyFault =
    | BadPage(fault: PageFault)
    | FirstPageNotAtZero(offset: u64)
    | SnapshotChanged(expected: u64, found: u64)
    | TotalChanged(expected: u64, found: u64)
    | HashChanged
    | OutOfOrder(received: nat, found: u64)
    | AfterComplete
    | Incomplete(received: nat, stated: Option<u64>)
    | HashMismatch(promised: Digest, computed: Digest)
    | Whitespace
    | Decode

  /** A decoded record, and the decoder: an arbitrary partial function of the bytes. */
  datatype Record = Record(json: string)

  const DecodeJson: string -> Option<Record>

  predicate IsWhitespace(c: char) {
    c == ' ' || c == '\t' || c == '\n' || c == '\r' || c as int == 12
  }

  function Next(a: Assembly): Option<PageCursor>
    requires |a.buffer| <= U64_MAX
  {
    match a.started
    case None => Some(START)
    case Some(s) => if s.complete then None else Some(PageCursor(s.snapshot, |a.buffer|))
  }

  function FollowsFault(a: Assembly, page: ObservationPage): Option<AssemblyFault>
    requires a.started.Some?
  {
    var s := a.started.value;
    if s.complete then Some(AfterComplete)
    else if page.snapshot != s.snapshot then Some(SnapshotChanged(s.snapshot, page.snapshot))
    else if page.total != s.total then Some(TotalChanged(s.total, page.total))
    else if page.sha256 != s.sha256 then Some(HashChanged)
    else if page.offset != |a.buffer| then Some(OutOfOrder(|a.buffer|, page.offset))
    else None
  }

  function AcceptFault(a: Assembly, page: ObservationPage): Option<AssemblyFault> {
    var fault := Check(page);
    if fault.Some? then Some(BadPage(fault.value))
    else if a.started.Some? then FollowsFault(a, page)
    else if page.offset != 0 then Some(FirstPageNotAtZero(page.offset))
    else None
  }

  function Accepted(a: Assembly, page: ObservationPage): Assembly {
    if AcceptFault(a, page).Some? then
      a
    else
      Assembly(Some(Started(page.snapshot, page.total, page.sha256, page.complete)), a.buffer + page.bytes)
  }

  function Finished(a: Assembly): Result<Record, AssemblyFault> {
    if a.started.None? || |a.buffer| != a.started.value.total then
      Err(Incomplete(|a.buffer|, if a.started.Some? then Some(a.started.value.total) else None))
    else if Sha256(a.buffer) != a.started.value.sha256 then
      Err(HashMismatch(a.started.value.sha256, Sha256(a.buffer)))
    else if a.buffer != "" && (IsWhitespace(a.buffer[0]) || IsWhitespace(a.buffer[|a.buffer| - 1])) then
      Err(Whitespace)
    else
      match DecodeJson(a.buffer)
      case Some(record) => Ok(record)
      case None => Err(Decode)
  }

  class PageAssembler {
    var started: Option<Started>
    var buffer: string

    ghost function View(): Assembly
      reads this
    {
      Assembly(started, buffer)
    }

    constructor ()
      ensures View() == EMPTY
    {
      started, buffer := None, "";
    }

    method NextCursor() returns (cursor: Option<PageCursor>)
      requires |buffer| <= U64_MAX
      ensures cursor == Next(View())
    {
      match started
      case None => cursor := Some(START);
      case Some(s) =>
        if s.complete {
          cursor := None;
        } else {
          cursor := Some(PageCursor(s.snapshot, |buffer|));
        }
    }

    method Accept(page: ObservationPage) returns (fault: Option<AssemblyFault>)
      modifies this
      ensures fault == AcceptFault(old(View()), page) && View() == Accepted(old(View()), page)
    {
      var broken := Check(page);
      if broken.Some? {
        return Some(BadPage(broken.value));
      }
      if started.None? {
        if page.offset != 0 {
          return Some(FirstPageNotAtZero(page.offset));
        }
      } else {
        fault := FollowsFault(Assembly(started, buffer), page);
        if fault.Some? {
          return;
        }
      }
      buffer := buffer + page.bytes;
      started := Some(Started(page.snapshot, page.total, page.sha256, page.complete));
      fault := None;
    }

    method Finish() returns (r: Result<Record, AssemblyFault>)
      ensures r == Finished(View())
    {
      if started.None? || |buffer| != started.value.total {
        return Err(Incomplete(|buffer|, if started.Some? then Some(started.value.total) else None));
      }
      var computed := Sha256(buffer);
      if computed != started.value.sha256 {
        return Err(HashMismatch(started.value.sha256, computed));
      }
      if buffer != "" && (IsWhitespace(buffer[0]) || IsWhitespace(buffer[|buffer| - 1])) {
        return Err(Whitespace);
      }
      match DecodeJson(buffer)
      case Some(record) => r := Ok(record);
      case None => r := Err(Decode);
    }
  }

  // ---------------------------------------------------------------- any sequence of pages

  /** The assembler after a sequence of pages from any peer, in order. */
  function Fed(pages: seq<ObservationPage>): Assembly {
    if pages == [] then EMPTY else Accepted(Fed(pages[..|pages| - 1]), pages[|pages| - 1])
  }

  /** The pages among them it accepted. */
  function Taken(pages: seq<ObservationPage>): seq<ObservationPage> {
    if pages == [] then
      []
    else
      var front, last := pages[..|pages| - 1], pages[|pages| - 1];
      Taken(front) + if AcceptFault(Fed(front), last).None? then [last] else []
  }

  function Bytes(pages: seq<ObservationPage>): string {
    if pages == [] then "" else Bytes(pages[..|pages| - 1]) + pages[|pages| - 1].bytes
  }

  /** `a` holds exactly the accepted pages' bytes, under the first one's stated account. */
  predicate Holds(a: Assembly, taken: seq<ObservationPage>) {
    && a.buffer == Bytes(taken)
    && (a.started.None? <==> taken == [])
    && (a.started.Some? ==>
          && a.started.value.snapshot == taken[0].snapshot
          && a.started.value.total == taken[0].total
          && a.started.value.sha256 == taken[0].sha256
          && 0 < |a.buffer| <= a.started.value.total
          && (a.started.value.complete <==> |a.buffer| == a.started.value.total))
  }

  /** A page is accepted exactly when it passes its check and either starts an account at 0 or
      carries on the unfinished one: same snapshot, total and hash, at the bytes received. */
  lemma AcceptedExactlyWhen(a: Assembly, page: ObservationPage)
    ensures AcceptFault(a, page).None?
            <==> && Check(page).None?
                 && (a.started.None? ==> page.offset == 0)
                 && (a.started.Some? ==>
                       && !a.started.value.complete
                       && page.snapshot == a.started.value.snapshot && page.total == a.started.value.total
                       && page.sha256 == a.started.value.sha256 && page.offset == |a.buffer|)
  {
  }

  /** Each refusal means its rule is broken and the rules before it hold. */
  lemma AcceptNamesFirstRule(a: Assembly, page: ObservationPage)
    requires AcceptFault(a, page).Some?
    ensures match AcceptFault(a, page).value
            case BadPage(fault) => Check(page) == Some(fault)
            case FirstPageNotAtZero(offset) => Check(page).None? && a.started.None? && offset == page.offset > 0
            case AfterComplete => Check(page).None? && a.started.Some? && a.started.value.complete
            case SnapshotChanged(expected, found) =>
              CarriesOn(a, page, 0) && expected == a.started.value.snapshot != found == page.snapshot
            case TotalChanged(expected, found) =>
              CarriesOn(a, page, 1) && expected == a.started.value.total != found == page.total
            case HashChanged => CarriesOn(a, page, 2) && page.sha256 != a.started.value.sha256
            case OutOfOrder(received, found) =>
              CarriesOn(a, page, 3) && received == |a.buffer| && found == page.offset && received != found
            case _ => false
  {
  }

  /** A good page for a started, unfinished account that agrees on the first `n` of its snapshot,
      total and hash. */
  predicate CarriesOn(a: Assembly, page: ObservationPage, n: nat) {
    && Check(page).None? && a.started.Some? && !a.started.value.complete
    && (n >= 1 ==> page.snapshot == a.started.value.snapshot)
    && (n >= 2 ==> page.total == a.started.value.total)
    && (n >= 3 ==> page.sha256 == a.started.value.sha256)
  }

  /** ASCII space, tab, line feed, form feed and carriage return, by their codes. */
  predicate IsAsciiSpace(c: char) {
    c as int in {9, 10, 12, 13, 32}
  }

  /** What finishing answers: missing bytes first, then a wrong hash, then whitespace at either
      end, then the decoder. */
  lemma FinishOutcome(a: Assembly)
    ensures Finished(a)
            == match a.started
               case None => Err(Incomplete(|a.buffer|, None))
               case Some(s) =>
                 if |a.buffer| != s.total then Err(Incomplete(|a.buffer|, Some(s.total)))
                 else if Sha256(a.buffer) != s.sha256 then Err(HashMismatch(s.sha256, Sha256(a.buffer)))
                 else if |a.buffer| > 0 && (IsAsciiSpace(a.buffer[0]) || IsAsciiSpace(a.buffer[|a.buffer| - 1])) then Err(Whitespace)
                 else if DecodeJson(a.buffer).None? then Err(Decode)
                 else Ok(DecodeJson(a.buffer).value)
  {
  }

  /** The next request asks for the start, then for the first missing byte, then for nothing. */
  lemma NextAsksForMissing(pages: seq<ObservationPage>)
    ensures |Fed(pages).buffer| == |Bytes(Taken(pages))| <= U64_MAX
    ensures Next(Fed(pages))
            == if Taken(pages) == [] then Some(PageCursor(0, 0))
               else if |Bytes(Taken(pages))| == Taken(pages)[0].total then None
               else Some(PageCursor(Taken(pages)[0].snapshot, |Bytes(Taken(pages))|))
  {
    AssemblerInvariant(pages);
  }

  /** A refused page changes nothing, and an accepted one extends what is held. */
  lemma AcceptExtends(a: Assembly, taken: seq<ObservationPage>, page: ObservationPage)
    requires Holds(a, taken)
    ensures AcceptFault(a, page).Some? ==> Accepted(a, page) == a
    ensures AcceptFault(a, page).None? ==> Holds(Accepted(a, page), taken + [page])
  {
    assert (taken + [page])[..|taken|] == taken;
  }

  /** Whatever pages arrive, the buffer is the accepted bytes in order, within the first total. */
  lemma {:induction false} AssemblerInvariant(pages: seq<ObservationPage>)
    ensures Holds(Fed(pages), Taken(pages))
  {
    if pages != [] {
      var front, last := pages[..|pages| - 1], pages[|pages| - 1];
      AssemblerInvariant(front);
      AcceptExtends(Fed(front), Taken(front), last);
      assert AcceptFault(Fed(front), last).Some? ==> Taken(front) + [] == Taken(front);
    }
  }

  /** The assembler yields a record only from every byte the first page stated, under its hash. */
  lemma FinishNeedsWholeAccount(pages: seq<ObservationPage>)
    requires Finished(Fed(pages)).Ok?
    ensures Taken(pages) != [] && Next(Fed(pages)).None?
    ensures |Bytes(Taken(pages))| == Taken(pages)[0].total
    ensures Sha256(Bytes(Taken(pages))) == Taken(pages)[0].sha256
    ensures DecodeJson(Bytes(Taken(pages))) == Some(Finished(Fed(pages)).value)
  {
    AssemblerInvariant(pages);
  }

  // ---------------------------------------------------------------- the two halves together

  /** What the assembler holds part way through a transfer of `account` under `snapshot`. */
  predicate PartWay(a: Assembly, account: FrozenAccount, snapshot: u64) {
    && a.started == Some(Started(snapshot, |account.bytes|, account.sha256, |a.buffer| == |account.bytes|))
    && 0 < |a.buffer| <= |account.bytes|
    && a.buffer == account.bytes[..|a.buffer|]
  }

  lemma NextPageFits<S>(a: Assembly, c: Capture<S>, pageBytes: nat)
    requires c.snapshot > 0 && 1 <= pageBytes <= MAX_PAGE_BYTES
    requires a == EMPTY || (PartWay(a, c.account, c.snapshot) && |a.buffer| < |c.account.bytes|)
    ensures var page := c.PageAt(|a.buffer|, pageBytes);
            && Check(page).None? && AcceptFault(a, page).None?
            && PartWay(Accepted(a, page), c.account, c.snapshot)
            && |Accepted(a, page).buffer| == |a.buffer| + Min(pageBytes, |c.account.bytes| - |a.buffer|)
  {
    CutPagePasses(c, |a.buffer|, pageBytes);
    var page := c.PageAt(|a.buffer|, pageBytes);
    assert c.account.bytes[..|a.buffer| + |page.bytes|] == c.account.bytes[..|a.buffer|] + page.bytes;
  }

  /** `pages` is the number of pages of `pageBytes` that `n` bytes take: n / pageBytes, rounded up. */
  predicate RoundsUp(pages: nat, n: nat, pageBytes: nat) {
    (pages - 1) * pageBytes < n <= pages * pageBytes
  }

  /** The slot holds `capture`, its newest, and may still be asked for pages. */
  ghost predicate Holding<S>(slot: Slot<S>, capture: Capture<S>) {
    && slot == Slot(slot.pageBytes, capture.snapshot, Some(capture), None)
    && capture.snapshot > 0 && 1 <= slot.pageBytes <= MAX_PAGE_BYTES
  }

  /** The first round: a new slot freezes the account, and a new assembler takes its first page. */
  method FirstPage<S(==)>(slot: CaptureSlot<S>, assembler: PageAssembler, scope: S, account: FrozenAccount,
                          expires: int, before: int, after: int)
    requires slot.View() == Fresh(slot.pageBytes) && assembler.View() == EMPTY
    requires 1 <= slot.pageBytes <= MAX_PAGE_BYTES && before < expires && after < expires
    modifies slot, assembler
    ensures Holding(slot.View(), Capture(1, scope, account, expires))
    ensures PartWay(assembler.View(), account, 1) && |assembler.buffer| == Min(slot.pageBytes, |account.bytes|)
  {
    ghost var capture := Capture(1, scope, account, expires);
    NextPageFits(assembler.View(), capture, slot.pageBytes);
    var reply := slot.TakeCapture(scope, expires, before, Ok(account), after);
    var fault := assembler.Accept(reply.page);
  }

  /** One more round: the slot answers the assembler's cursor, and the assembler takes the page.
      The request's own deadline may lower the held one. */
  method NextPage<S(==)>(slot: CaptureSlot<S>, assembler: PageAssembler, ghost capture: Capture<S>,
                         scope: S, cursor: PageCursor, requestExpires: int, now: int)
    requires Holding(slot.View(), capture) && scope == capture.scope
    requires now < capture.expires && now < requestExpires
    requires PartWay(assembler.View(), capture.account, capture.snapshot) && Some(cursor) == Next(assembler.View())
    modifies slot, assembler
    ensures Holding(slot.View(), capture.(expires := Min(capture.expires, requestExpires)))
    ensures PartWay(assembler.View(), capture.account, capture.snapshot)
    ensures |assembler.buffer| == Min(|old(assembler.buffer)| + slot.pageBytes, |capture.account.bytes|)
  {
    NextPageFits(assembler.View(), capture, slot.pageBytes);
    var reply := slot.Page(scope, cursor, requestExpires, now);
    var fault := assembler.Accept(reply.page);
  }

  /** What finishing owes a whole account: only edge whitespace or the decoder may refuse it. */
  function Decoded(account: FrozenAccount): Result<Record, AssemblyFault> {
    if IsWhitespace(account.bytes[0]) || IsWhitespace(account.bytes[|account.bytes| - 1]) then
      Err(Whitespace)
    else
      match DecodeJson(account.bytes)
      case Some(record) => Ok(record)
      case None => Err(Decode)
  }

  lemma WholeAccountDecodes(account: FrozenAccount, snapshot: u64)
    ensures Finished(Assembly(Some(Started(snapshot, |account.bytes|, account.sha256, true)), account.bytes))
            == Decoded(account)
  {
  }

  /** Driving a new slot with a new assembler's cursors moves the whole account in exactly the
      pages it needs, and finishing reaches decoding with its bytes. Request `p` carries the
      deadline `expires(p)`, and each of the clock's readings comes before every deadline given
      so far: readings 0 and 1 frame the collection, and request `p` is answered at `p + 1`. */
  method Transfer<S(==)>(scope: S, account: FrozenAccount, pageBytes: nat, expires: nat -> int, clock: nat -> int)
    returns (pages: nat, received: string, r: Result<Record, AssemblyFault>)
    requires 1 <= pageBytes <= MAX_PAGE_BYTES
    requires clock(0) < expires(0)
    requires forall p: nat, k: nat | p < k && (k - 1) * pageBytes < |account.bytes| :: clock(k) < expires(p)
    ensures RoundsUp(pages, |account.bytes|, pageBytes)
    ensures received == account.bytes && r == Decoded(account)
  {
    var slot := new CaptureSlot<S>(pageBytes);
    var assembler := new PageAssembler();
    FirstPage(slot, assembler, scope, account, expires(0), clock(0), clock(1));
    ghost var capture := Capture(1, scope, account, expires(0));
    pages := 1;
    var cursor := assembler.NextCursor();
    while cursor.Some?
      invariant capture.snapshot == 1 && capture.account == account && capture.scope == scope
      invariant PartWay(assembler.View(), account, 1) && Holding(slot.View(), capture)
      invariant cursor == Next(assembler.View())
      invariant forall k: nat | pages < k && (k - 1) * pageBytes < |account.bytes| :: clock(k) < capture.expires
      invariant (pages - 1) * pageBytes < |account.bytes|
      invariant |assembler.buffer| == Min(pages * pageBytes, |account.bytes|)
      decreases |account.bytes| - |assembler.buffer|
    {
      NextPage(slot, assembler, capture, scope, cursor.value, expires(pages), clock(pages + 1));
      capture := capture.(expires := Min(capture.expires, expires(pages)));
      pages := pages + 1;
      cursor := assembler.NextCursor();
    }
    received := assembler.buffer;
    WholeAccountDecodes(account, 1);
    r := assembler.Finish();
  }
}
