/** The outbound webhook retry queue (src/server/webhookRetryQueue.js): enqueue, sequential
    processing passes, dead-lettering, manual retry, status summary and cleanup. */
module RetryQueue {
  import opened Wrappers

  const MAX_RETRIES: nat := 5

  const MINUTE: nat := 60000

  const DAY_MS: nat := 86400000

  /** The wait before the given attempt. */
  function Delay(attempt: nat): nat {
    if attempt == 0 then 0
    else if attempt == 1 then MINUTE
    else if attempt == 2 then 5 * MINUTE
    else if attempt == 3 then 30 * MINUTE
    else 120 * MINUTE
  }

  datatype Status = Pending | Delivered | DeadLetter

  datatype Entry = Entry(
    status: Status, attempt: nat, retryCount: nat, nextRetryAt: nat, createdAt: nat,
    deliveredAt: Option<nat>, deadLetterAt: Option<nat>, cleared: bool)

  /** What one POST came to, and when. */
  datatype Reply = Reply(ok: bool, at: nat)

  /** The rows in insertion order, an entry's id being its position, and the ids of the entries
      that a critical notification was pushed for. */
  datatype Queue = Queue(rows: seq<Entry>, notices: seq<nat>)

  const EMPTY := Queue([], [])

  // ---------------------------------------------------------------- the operations on values

  function Deliver(e: Entry, at: nat): Entry {
    e.(status := Delivered, deliveredAt := Some(at))
  }

  /** The row that `enqueue` leaves: inserted, then posted at once. */
  function Enqueued(at: nat, reply: Reply): Entry {
    var entry := Entry(Pending, 0, 0, at, at, None, None, false);
    if reply.ok then Deliver(entry, reply.at)
    else entry.(attempt := 1, nextRetryAt := reply.at + Delay(1))
  }

  function Enqueue(q: Queue, hasUrl: bool, hasPayload: bool, at: nat, reply: Reply): Queue {
    if !hasUrl || !hasPayload then q else q.(rows := q.rows + [Enqueued(at, reply)])
  }

  predicate Due(e: Entry, start: nat) {
    e.status == Pending && e.nextRetryAt <= start
  }

  predicate Dies(e: Entry, reply: Reply) {
    !reply.ok && e.attempt + 1 >= MAX_RETRIES
  }

  /** One delivery of a pass that began at `start`: the next retry counts from the pass's start. */
  function Settle(e: Entry, start: nat, reply: Reply): Entry {
    if reply.ok then Deliver(e, reply.at)
    else if e.attempt + 1 >= MAX_RETRIES then
      e.(status := DeadLetter, deadLetterAt := Some(reply.at), attempt := e.attempt + 1)
    else
      e.(attempt := e.attempt + 1, nextRetryAt := start + Delay(e.attempt + 1), retryCount := e.retryCount + 1)
  }

  /** The reply the network gives for entry `id`; a missing one is a timeout at the start. */
  function ReplyFor(replies: seq<Reply>, id: nat, start: nat): Reply {
    if id < |replies| then replies[id] else Reply(false, start)
  }

  /** The ids below `n` of the due entries, in insertion order. */
  function DueIds(rows: seq<Entry>, start: nat, n: nat): (ids: seq<nat>)
    requires n <= |rows|
    ensures forall k :: 0 <= k < |ids| ==> ids[k] < n && Due(rows[ids[k]], start)
    ensures |ids| <= n
  {
    if n == 0 then []
    else DueIds(rows, start, n - 1) + if Due(rows[n - 1], start) then [n - 1] else []
  }

  /** The entries among `ids` that this pass moves to the dead letters. */
  function Dying(rows: seq<Entry>, ids: seq<nat>, start: nat, replies: seq<Reply>): (dead: seq<nat>)
    requires forall k :: 0 <= k < |ids| ==> ids[k] < |rows|
    ensures |dead| <= |ids|
    decreases |ids|
  {
    if ids == [] then []
    else
      var last := ids[|ids| - 1];
      Dying(rows, ids[..|ids| - 1], start, replies)
      + if Dies(rows[last], ReplyFor(replies, last, start)) then [last] else []
  }

  /** How many of the posts to `ids` succeed. */
  function Accepted(ids: seq<nat>, start: nat, replies: seq<Reply>): nat {
    if ids == [] then 0
    else Accepted(ids[..|ids| - 1], start, replies) + if ReplyFor(replies, ids[|ids| - 1], start).ok then 1 else 0
  }

  function PassRows(rows: seq<Entry>, start: nat, replies: seq<Reply>): (rows': seq<Entry>)
    ensures |rows'| == |rows|
    ensures forall i :: 0 <= i < |rows| ==>
      rows'[i] == if Due(rows[i], start) then Settle(rows[i], start, ReplyFor(replies, i, start)) else rows[i]
  {
    seq(|rows|, i requires 0 <= i < |rows| =>
      if Due(rows[i], start) then Settle(rows[i], start, ReplyFor(replies, i, start)) else rows[i])
  }

  function Pass(q: Queue, start: nat, replies: seq<Reply>): Queue {
    Queue(PassRows(q.rows, start, replies),
          q.notices + Dying(q.rows, DueIds(q.rows, start, |q.rows|), start, replies))
  }

  predicate Retriable(q: Queue, id: nat) {
    id < |q.rows| && q.rows[id].status == DeadLetter
  }

  function Revived(e: Entry, at: nat): Entry {
    e.(status := Pending, attempt := 0, retryCount := 0, nextRetryAt := at, deadLetterAt := None)
  }

  function RetryDeadLetter(q: Queue, id: nat, at: nat): Queue {
    if Retriable(q, id) then q.(rows := q.rows[id := Revived(q.rows[id], at)]) else q
  }

  predicate Clearable(e: Entry, cutoff: int) {
    (e.status == Delivered || e.status == DeadLetter) && e.createdAt < cutoff
  }

  function Cleared(rows: seq<Entry>, cutoff: int): (rows': seq<Entry>)
    ensures |rows'| == |rows|
    ensures forall i :: 0 <= i < |rows| ==>
      rows'[i] == if Clearable(rows[i], cutoff) then rows[i].(cleared := true) else rows[i]
  {
    seq(|rows|, i requires 0 <= i < |rows| =>
      if Clearable(rows[i], cutoff) then rows[i].(cleared := true) else rows[i])
  }

  function ClearableCount(rows: seq<Entry>, cutoff: int): nat {
    if rows == [] then 0
    else ClearableCount(rows[..|rows| - 1], cutoff) + if Clearable(rows[|rows| - 1], cutoff) then 1 else 0
  }

  function Cleanup(q: Queue, at: nat, olderThanDays: nat): Queue {
    q.(rows := Cleared(q.rows, at - olderThanDays * DAY_MS))
  }

  function CountOf(rows: seq<Entry>, status: Status): (n: nat)
    ensures n <= |rows|
  {
    if rows == [] then 0 else CountOf(rows[..|rows| - 1], status) + if rows[|rows| - 1].status == status then 1 else 0
  }

  // ---------------------------------------------------------------- the queue object

  class Service {
    var rows: seq<Entry>
    var notices: seq<nat>

    ghost function Model(): Queue
      reads this
    {
      Queue(rows, notices)
    }

    constructor ()
      ensures Model() == EMPTY
    {
      rows, notices := [], [];
    }

    /** Insert and post at once; no id when the url or the payload is missing. */
    method Add(hasUrl: bool, hasPayload: bool, at: nat, reply: Reply) returns (id: Option<nat>)
      modifies this
      ensures Model() == Enqueue(old(Model()), hasUrl, hasPayload, at, reply)
      ensures id == if hasUrl && hasPayload then Some(old(|rows|)) else None
    {
      if !hasUrl || !hasPayload { return None; }
      var entry := Entry(Pending, 0, 0, at, at, None, None, false);
      id := Some(|rows|);
      rows := rows + [entry];
      if reply.ok {
        rows := rows[id.value := entry.(status := Delivered, deliveredAt := Some(reply.at))];
      } else {
        rows := rows[id.value := entry.(attempt := 1, nextRetryAt := reply.at + Delay(1))];
      }
    }

    /** Record what one delivery of a pass came to. */
    method Record(id: nat, entry: Entry, start: nat, result: Reply)
      requires id < |rows|
      modifies this
      ensures rows == old(rows)[id := Settle(entry, start, result)]
      ensures notices == old(notices) + if Dies(entry, result) then [id] else []
    {
      if result.ok {
        rows := rows[id := entry.(status := Delivered, deliveredAt := Some(result.at))];
      } else {
        var nextAttempt := entry.attempt + 1;
        if nextAttempt >= MAX_RETRIES {
          rows := rows[id := entry.(status := DeadLetter, deadLetterAt := Some(result.at), attempt := nextAttempt)];
          notices := notices + [id];
        } else {
          rows := rows[id := entry.(attempt := nextAttempt, nextRetryAt := start + Delay(nextAttempt),
                                    retryCount := entry.retryCount + 1)];
        }
      }
    }

    /** One pass over the entries that are due when it starts. */
    method ProcessQueue(start: nat, replies: seq<Reply>) returns (processed: nat, delivered: nat, failed: nat)
      modifies this
      ensures Model() == Pass(old(Model()), start, replies)
      ensures processed == |DueIds(old(rows), start, |old(rows)|)|
      ensures delivered == Accepted(DueIds(old(rows), start, |old(rows)|), start, replies)
      ensures failed == |notices| - |old(notices)|
    {
      var was := rows;
      var pending := DueIds(was, start, |was|);
      processed, delivered, failed := |pending|, 0, 0;
      for j := 0 to |pending|
        invariant |rows| == |was|
        invariant rows == SettledRows(was, pending[..j], start, replies)
        invariant notices == old(notices) + Dying(was, pending[..j], start, replies)
        invariant delivered == Accepted(pending[..j], start, replies)
        invariant failed == |notices| - |old(notices)|
      {
        var id := pending[j];
        var result := ReplyFor(replies, id, start);
        assert pending[..j + 1][..j] == pending[..j];
        Record(id, was[id], start, result);
        if result.ok {
          delivered := delivered + 1;
        } else if was[id].attempt + 1 >= MAX_RETRIES {
          failed := failed + 1;
        }
      }
      assert pending[..|pending|] == pending;
      AllSettled(was, start, replies);
    }

    /** False when the entry is missing or not a dead letter. */
    method Retry(id: nat, at: nat) returns (retried: bool)
      modifies this
      ensures Model() == RetryDeadLetter(old(Model()), id, at)
      ensures retried == Retriable(old(Model()), id)
    {
      if id >= |rows| || rows[id].status != DeadLetter { return false; }
      rows := rows[id := rows[id].(status := Pending, attempt := 0, retryCount := 0, nextRetryAt := at,
                                   deadLetterAt := None)];
      return true;
    }

    /** Flag old settled entries. */
    method Clean(at: nat, olderThanDays: nat) returns (cleared: nat)
      modifies this
      ensures Model() == Cleanup(old(Model()), at, olderThanDays)
      ensures cleared == ClearableCount(old(rows), at - olderThanDays * DAY_MS)
    {
      var cutoff := at - olderThanDays * DAY_MS;
      var all := rows;
      cleared := 0;
      for i := 0 to |all|
        invariant |rows| == |all| && notices == old(notices)
        invariant forall k :: 0 <= k < i ==>
          rows[k] == if Clearable(all[k], cutoff) then all[k].(cleared := true) else all[k]
        invariant forall k :: i <= k < |all| ==> rows[k] == all[k]
        invariant cleared == ClearableCount(all[..i], cutoff)
      {
        assert all[..i + 1][..i] == all[..i];
        if Clearable(all[i], cutoff) {
          rows := rows[i := rows[i].(cleared := true)];
          cleared := cleared + 1;
        }
      }
      assert all[..|all|] == all;
      assert rows == Cleared(all, cutoff);
    }

    /** The summary: the counts add up, and the next retry is the earliest of the pending ones. */
    method Summary() returns (total: nat, pending: nat, delivered: nat, deadLetter: nat, nextRetry: Option<nat>)
      ensures total == |rows| && total == pending + delivered + deadLetter
      ensures pending == CountOf(rows, Pending) && delivered == CountOf(rows, Delivered)
      ensures deadLetter == CountOf(rows, DeadLetter)
      ensures nextRetry == None <==> pending == 0
      ensures nextRetry.Some? ==>
        && (exists i :: 0 <= i < |rows| && rows[i].status == Pending && rows[i].nextRetryAt == nextRetry.value)
        && (forall i :: 0 <= i < |rows| && rows[i].status == Pending ==> nextRetry.value <= rows[i].nextRetryAt)
    {
      total, pending, delivered, deadLetter, nextRetry := |rows|, 0, 0, 0, None;
      for i := 0 to |rows|
        invariant i == pending + delivered + deadLetter
        invariant pending == CountOf(rows[..i], Pending) && delivered == CountOf(rows[..i], Delivered)
        invariant deadLetter == CountOf(rows[..i], DeadLetter)
        invariant nextRetry == None <==> pending == 0
        invariant nextRetry == None ==> forall k :: 0 <= k < i ==> rows[k].status != Pending
        invariant nextRetry.Some? ==>
          && (exists k :: 0 <= k < i && rows[k].status == Pending && rows[k].nextRetryAt == nextRetry.value)
          && (forall k :: 0 <= k < i && rows[k].status == Pending ==> nextRetry.value <= rows[k].nextRetryAt)
      {
        assert rows[..i + 1][..i] == rows[..i];
        match rows[i].status {
          case Pending =>
            pending := pending + 1;
            if nextRetry == None || rows[i].nextRetryAt < nextRetry.value { nextRetry := Some(rows[i].nextRetryAt); }
          case Delivered => delivered := delivered + 1;
          case DeadLetter => deadLetter := deadLetter + 1;
        }
      }
      assert rows[..|rows|] == rows;
    }
  }

  /** The rows after the entries `ids` have been settled one after the other. */
  function SettledRows(was: seq<Entry>, ids: seq<nat>, start: nat, replies: seq<Reply>): (rows: seq<Entry>)
    requires forall k :: 0 <= k < |ids| ==> ids[k] < |was|
    ensures |rows| == |was|
    decreases |ids|
  {
    if ids == [] then was
    else
      var last := ids[|ids| - 1];
      SettledRows(was, ids[..|ids| - 1], start, replies)[last := Settle(was[last], start, ReplyFor(replies, last, start))]
  }

  lemma {:induction false} SettledRowsAt(was: seq<Entry>, ids: seq<nat>, start: nat, replies: seq<Reply>, i: nat)
    requires (forall k :: 0 <= k < |ids| ==> ids[k] < |was|) && i < |was|
    ensures SettledRows(was, ids, start, replies)[i]
         == if i in ids then Settle(was[i], start, ReplyFor(replies, i, start)) else was[i]
    decreases |ids|
  {
    if ids != [] {
      SettledRowsAt(was, ids[..|ids| - 1], start, replies, i);
      assert ids == ids[..|ids| - 1] + [ids[|ids| - 1]];
    }
  }

  /** Settling the due entries one after the other is the pass. */
  lemma AllSettled(was: seq<Entry>, start: nat, replies: seq<Reply>)
    ensures SettledRows(was, DueIds(was, start, |was|), start, replies) == PassRows(was, start, replies)
  {
    forall i: nat | i < |was|
      ensures SettledRows(was, DueIds(was, start, |was|), start, replies)[i] == PassRows(was, start, replies)[i]
    {
      DueOnce(was, start, |was|, i);
      SettledRowsAt(was, DueIds(was, start, |was|), start, replies, i);
    }
  }

  // ---------------------------------------------------------------- runs

  datatype Event =
    | EnqueueAt(hasUrl: bool, hasPayload: bool, at: nat, reply: Reply)
    | PassAt(start: nat, end: nat, replies: seq<Reply>)
    | RetryAt(id: nat, at: nat)
    | CleanupAt(at: nat, days: nat)

  function Next(q: Queue, e: Event): Queue {
    match e
    case EnqueueAt(hasUrl, hasPayload, at, reply) => Enqueue(q, hasUrl, hasPayload, at, reply)
    case PassAt(start, _, replies) => Pass(q, start, replies)
    case RetryAt(id, at) => RetryDeadLetter(q, id, at)
    case CleanupAt(at, days) => Cleanup(q, at, days)
  }

  function After(q: Queue, evs: seq<Event>): Queue
    decreases |evs|
  {
    if evs == [] then q else After(Next(q, evs[0]), evs[1..])
  }

  function Started(e: Event): nat {
    if e.PassAt? then e.start else e.at
  }

  function Ended(e: Event): nat {
    match e
    case EnqueueAt(_, _, _, reply) => reply.at
    case PassAt(_, end, _) => end
    case RetryAt(_, at) => at
    case CleanupAt(at, _) => at
  }

  /** Every reply arrives while its operation is under way. */
  predicate Timely(e: Event) {
    && Started(e) <= Ended(e)
    && (e.PassAt? ==> forall i :: 0 <= i < |e.replies| ==> e.start <= e.replies[i].at <= e.end)
  }

  /** Operations follow each other on a clock that never goes back. */
  predicate Sequential(evs: seq<Event>, t: nat) {
    evs == [] || (t <= Started(evs[0]) && Timely(evs[0]) && Sequential(evs[1..], Ended(evs[0])))
  }

  predicate NeverRetried(evs: seq<Event>, id: nat) {
    forall i :: 0 <= i < |evs| ==> evs[i] != RetryAt(id, Started(evs[i]))
  }

  // ---------------------------------------------------------------- counting failures

  /** What has happened to an entry since it was enqueued or last manually retried: how many
      deliveries failed; and, over its whole life, how often it was manually retried. */
  datatype Story = Story(failures: nat, retries: nat)

  function StoryNext(q: Queue, e: Event, id: nat, story: Story): Story {
    match e
    case EnqueueAt(hasUrl, hasPayload, _, reply) =>
      if hasUrl && hasPayload && id == |q.rows| then Story(if reply.ok then 0 else 1, 0) else story
    case PassAt(start, _, replies) =>
      if id < |q.rows| && Due(q.rows[id], start) && !ReplyFor(replies, id, start).ok
      then story.(failures := story.failures + 1) else story
    case RetryAt(i, _) => if i == id && Retriable(q, id) then Story(0, story.retries + 1) else story
    case CleanupAt(_, _) => story
  }

  function StoryOf(q: Queue, evs: seq<Event>, id: nat, story: Story): Story
    decreases |evs|
  {
    if evs == [] then story else StoryOf(Next(q, evs[0]), evs[1..], id, StoryNext(q, evs[0], id, story))
  }

  /** The retries counted since the story began: the failed posts of passes that led to another
      try, so neither the post inside `enqueue` nor the last one. */
  function Retries(e: Entry, story: Story): nat {
    var inPasses: nat := if story.retries == 0 && story.failures > 0 then story.failures - 1 else story.failures;
    if e.status == DeadLetter && inPasses > 0 then inPasses - 1 else inPasses
  }

  predicate EntryAgrees(e: Entry, story: Story, notices: nat) {
    && e.attempt == story.failures
    && (e.status == Pending ==> e.attempt < MAX_RETRIES && (story.retries == 0 ==> e.attempt > 0))
    && e.retryCount == Retries(e, story)
    && (e.status == Delivered ==> e.attempt < MAX_RETRIES && e.deliveredAt.Some?)
    && (e.status == DeadLetter ==> e.attempt == MAX_RETRIES && e.deadLetterAt.Some?)
    && notices == story.retries + if e.status == DeadLetter then 1 else 0
  }

  /** The entry agrees with its story, and was announced once for every time it died. */
  ghost predicate Agrees(q: Queue, id: nat, story: Story) {
    if id < |q.rows| then EntryAgrees(q.rows[id], story, Times(q.notices, id))
    else Times(q.notices, id) == 0
  }

  /** How often `id` occurs. */
  function Times(ids: seq<nat>, id: nat): nat {
    if ids == [] then 0 else Times(ids[..|ids| - 1], id) + if ids[|ids| - 1] == id then 1 else 0
  }

  lemma TimesLast(ids: seq<nat>, x: nat, id: nat)
    ensures Times(ids + [x], id) == Times(ids, id) + if x == id then 1 else 0
  {
    assert (ids + [x])[..|ids|] == ids;
  }

  lemma {:induction false} TimesAppend(a: seq<nat>, b: seq<nat>, id: nat)
    ensures Times(a + b, id) == Times(a, id) + Times(b, id)
    decreases |b|
  {
    if b == [] {
      assert a + b == a;
    } else {
      var front, last := b[..|b| - 1], b[|b| - 1];
      assert a + b == (a + front) + [last];
      TimesAppend(a, front, id);
      TimesLast(a + front, last, id);
    }
  }

  lemma {:induction false} DueOnce(rows: seq<Entry>, start: nat, n: nat, id: nat)
    requires n <= |rows|
    ensures Times(DueIds(rows, start, n), id) == if id < n && Due(rows[id], start) then 1 else 0
    ensures id in DueIds(rows, start, n) <==> id < n && Due(rows[id], start)
  {
    if n > 0 {
      var front := DueIds(rows, start, n - 1);
      DueOnce(rows, start, n - 1, id);
      TimesLast(front, n - 1, id);
      assert front + [] == front;
    }
  }

  lemma {:induction false} DyingOnce(rows: seq<Entry>, ids: seq<nat>, start: nat, replies: seq<Reply>, id: nat)
    requires forall k :: 0 <= k < |ids| ==> ids[k] < |rows|
    ensures Times(Dying(rows, ids, start, replies), id)
         == if id < |rows| && Dies(rows[id], ReplyFor(replies, id, start)) then Times(ids, id) else 0
    decreases |ids|
  {
    if ids != [] {
      var front, last := ids[..|ids| - 1], ids[|ids| - 1];
      var dead := Dying(rows, front, start, replies);
      DyingOnce(rows, front, start, replies, id);
      TimesLast(dead, last, id);
      assert dead + [] == dead;
    }
  }

  lemma PassNotices(q: Queue, start: nat, replies: seq<Reply>, id: nat)
    ensures Times(Pass(q, start, replies).notices, id) == Times(q.notices, id)
      + if id < |q.rows| && Due(q.rows[id], start) && Dies(q.rows[id], ReplyFor(replies, id, start)) then 1 else 0
  {
    var due := DueIds(q.rows, start, |q.rows|);
    DueOnce(q.rows, start, |q.rows|, id);
    DyingOnce(q.rows, due, start, replies, id);
    TimesAppend(q.notices, Dying(q.rows, due, start, replies), id);
  }

  lemma NextAgrees(q: Queue, e: Event, id: nat, story: Story)
    requires Agrees(q, id, story)
    ensures Agrees(Next(q, e), id, StoryNext(q, e, id, story))
  {
    if e.PassAt? { PassNotices(q, e.start, e.replies, id); }
  }

  lemma {:induction false} RunAgrees(q: Queue, evs: seq<Event>, id: nat, story: Story)
    requires Agrees(q, id, story)
    ensures Agrees(After(q, evs), id, StoryOf(q, evs, id, story))
    decreases |evs|
  {
    if evs != [] {
      NextAgrees(q, evs[0], id, story);
      RunAgrees(Next(q, evs[0]), evs[1..], id, StoryNext(q, evs[0], id, story));
    }
  }

  /** After any run: a pending entry has failed fewer than five times since it was enqueued or
      manually retried, a dead letter exactly five times, and one notification was pushed for
      every time the entry died. */
  lemma DeadAfterExactlyFive(evs: seq<Event>, id: nat)
    ensures var q := After(EMPTY, evs);
      id < |q.rows| ==>
        var story := StoryOf(EMPTY, evs, id, Story(0, 0));
        && q.rows[id].attempt == story.failures
        && (q.rows[id].status == DeadLetter <==> story.failures == MAX_RETRIES)
        && (q.rows[id].status == Pending ==> story.failures < MAX_RETRIES)
        && q.rows[id].retryCount == Retries(q.rows[id], story)
        && Times(q.notices, id) == story.retries + if q.rows[id].status == DeadLetter then 1 else 0
  {
    RunAgrees(EMPTY, evs, id, Story(0, 0));
  }

  // ---------------------------------------------------------------- what stays

  lemma DeliveredStaysOnce(q: Queue, e: Event, id: nat)
    requires id < |q.rows| && q.rows[id].status == Delivered
    ensures id < |Next(q, e).rows|
    ensures Next(q, e).rows[id] == q.rows[id].(cleared := Next(q, e).rows[id].cleared)
    ensures StoryNext(q, e, id, Story(0, 0)) == Story(0, 0)
  {
  }

  /** A delivered entry is never posted, retried or dead-lettered again; only its `cleared` flag
      can still change. */
  lemma {:induction false} DeliveredIsFinal(q: Queue, evs: seq<Event>, id: nat)
    requires id < |q.rows| && q.rows[id].status == Delivered
    ensures id < |After(q, evs).rows|
    ensures After(q, evs).rows[id] == q.rows[id].(cleared := After(q, evs).rows[id].cleared)
    ensures StoryOf(q, evs, id, Story(0, 0)) == Story(0, 0)
    decreases |evs|
  {
    if evs != [] {
      DeliveredStaysOnce(q, evs[0], id);
      DeliveredIsFinal(Next(q, evs[0]), evs[1..], id);
    }
  }

  lemma {:induction false} CountsAddUp(rows: seq<Entry>)
    ensures |rows| == CountOf(rows, Pending) + CountOf(rows, Delivered) + CountOf(rows, DeadLetter)
  {
    if rows != [] { CountsAddUp(rows[..|rows| - 1]); }
  }

  function EnqueuesIn(evs: seq<Event>): nat {
    if evs == [] then 0
    else (if evs[0].EnqueueAt? && evs[0].hasUrl && evs[0].hasPayload then 1 else 0) + EnqueuesIn(evs[1..])
  }

  /** No operation loses or invents an entry: the three counts always add up to the number of
      accepted enqueues. */
  lemma {:induction false} NothingIsLost(q: Queue, evs: seq<Event>)
    ensures var rows := After(q, evs).rows;
      CountOf(rows, Pending) + CountOf(rows, Delivered) + CountOf(rows, DeadLetter) == |q.rows| + EnqueuesIn(evs)
    decreases |evs|
  {
    if evs == [] {
      CountsAddUp(q.rows);
    } else {
      assert |Next(q, evs[0]).rows| == |q.rows| + EnqueuesIn([evs[0]]);
      NothingIsLost(Next(q, evs[0]), evs[1..]);
    }
  }

  // ---------------------------------------------------------------- what enqueue does

  /** An accepted enqueue adds one entry, delivered at the time of a good reply and otherwise due one
      minute after a bad one; one without url or payload changes nothing. */
  lemma EnqueueAdds(q: Queue, hasUrl: bool, hasPayload: bool, at: nat, reply: Reply)
    ensures var q' := Enqueue(q, hasUrl, hasPayload, at, reply);
      && q'.notices == q.notices
      && (!(hasUrl && hasPayload) ==> q' == q)
      && (hasUrl && hasPayload ==>
            && |q'.rows| == |q.rows| + 1 && q'.rows[..|q.rows|] == q.rows
            && var e := q'.rows[|q.rows|];
               && e.createdAt == at && e.deadLetterAt == None && !e.cleared && e.retryCount == 0
               && (reply.ok ==> e.status == Delivered && e.deliveredAt == Some(reply.at) && e.attempt == 0)
               && (!reply.ok ==>
                     e.status == Pending && e.deliveredAt == None && e.attempt == 1 && e.nextRetryAt == reply.at + 60000))
  {
  }

  // ---------------------------------------------------------------- what a pass does

  /** What a pass leaves of each entry: a due one whose post succeeds is delivered at the time of the
      reply, and otherwise as it was; a due one whose post fails has one attempt more, and is a dead
      letter at its fifth and else waits for the scheduled time after the pass's start; an entry
      that was not due stays as it was. */
  lemma PassSettles(q: Queue, start: nat, replies: seq<Reply>, i: nat)
    requires i < |q.rows|
    ensures |Pass(q, start, replies).rows| == |q.rows|
    ensures var e, e', reply := q.rows[i], Pass(q, start, replies).rows[i], ReplyFor(replies, i, start);
      var due := e.status == Pending && e.nextRetryAt <= start;
      && (!due ==> e' == e)
      && (due && reply.ok ==>
            && e'.status == Delivered && e'.deliveredAt == Some(reply.at)
            && e'.(status := e.status, deliveredAt := e.deliveredAt) == e)
      && (due && !reply.ok ==> e'.attempt == e.attempt + 1 && e'.deliveredAt == e.deliveredAt)
      && (due && !reply.ok && e'.attempt < 5 ==>
            && e'.status == Pending && e'.retryCount == e.retryCount + 1
            && e'.nextRetryAt == start + [0, 1, 5, 30, 120][e'.attempt] * 60000)
      && (due && !reply.ok && e'.attempt >= 5 ==> e'.status == DeadLetter && e'.deadLetterAt == Some(reply.at))
  {
  }

  lemma CountLast(rows: seq<Entry>, n: nat, status: Status)
    requires 0 < n <= |rows|
    ensures CountOf(rows[..n], status) == CountOf(rows[..n - 1], status) + if rows[n - 1].status == status then 1 else 0
  {
    assert rows[..n][..n - 1] == rows[..n - 1];
  }

  /** The due entries below `n`, the last of them taken apart. */
  lemma DueLast(rows: seq<Entry>, start: nat, replies: seq<Reply>, n: nat)
    requires 0 < n <= |rows|
    ensures var due, reply := Due(rows[n - 1], start), ReplyFor(replies, n - 1, start);
      && Accepted(DueIds(rows, start, n), start, replies)
         == Accepted(DueIds(rows, start, n - 1), start, replies) + (if due && reply.ok then 1 else 0)
      && |Dying(rows, DueIds(rows, start, n), start, replies)|
         == |Dying(rows, DueIds(rows, start, n - 1), start, replies)| + (if due && Dies(rows[n - 1], reply) then 1 else 0)
  {
    var front := DueIds(rows, start, n - 1);
    assert (front + [n - 1])[..|front|] == front && front + [] == front;
  }

  /** What becomes of the delivered entries below `n` in a pass, and of the dead ones. */
  lemma {:induction false} PassDelivers(rows: seq<Entry>, start: nat, replies: seq<Reply>, n: nat)
    requires n <= |rows|
    ensures CountOf(PassRows(rows, start, replies)[..n], Delivered)
         == CountOf(rows[..n], Delivered) + Accepted(DueIds(rows, start, n), start, replies)
  {
    if n > 0 {
      PassDelivers(rows, start, replies, n - 1);
      DueLast(rows, start, replies, n);
      CountLast(rows, n, Delivered);
      CountLast(PassRows(rows, start, replies), n, Delivered);
    }
  }

  lemma {:induction false} PassKills(rows: seq<Entry>, start: nat, replies: seq<Reply>, n: nat)
    requires n <= |rows|
    ensures CountOf(PassRows(rows, start, replies)[..n], DeadLetter)
         == CountOf(rows[..n], DeadLetter) + |Dying(rows, DueIds(rows, start, n), start, replies)|
  {
    if n > 0 {
      PassKills(rows, start, replies, n - 1);
      DueLast(rows, start, replies, n);
      CountLast(rows, n, DeadLetter);
      CountLast(PassRows(rows, start, replies), n, DeadLetter);
    }
  }

  /** A pass reports as delivered and as failed exactly the entries that it moved to `Delivered` and
      to the dead letters. */
  lemma PassReports(q: Queue, start: nat, replies: seq<Reply>)
    ensures var q', ids := Pass(q, start, replies), DueIds(q.rows, start, |q.rows|);
      && CountOf(q'.rows, Delivered) == CountOf(q.rows, Delivered) + Accepted(ids, start, replies)
      && CountOf(q'.rows, DeadLetter) == CountOf(q.rows, DeadLetter) + |q'.notices| - |q.notices|
  {
    PassDelivers(q.rows, start, replies, |q.rows|);
    PassKills(q.rows, start, replies, |q.rows|);
    assert q.rows[..|q.rows|] == q.rows;
    assert PassRows(q.rows, start, replies)[..|q.rows|] == PassRows(q.rows, start, replies);
  }

  /** When the posts of entry `id` that succeed in this event are answered. */
  function SuccessesNow(q: Queue, e: Event, id: nat): seq<nat> {
    match e
    case EnqueueAt(hasUrl, hasPayload, _, reply) =>
      if hasUrl && hasPayload && id == |q.rows| && reply.ok then [reply.at] else []
    case PassAt(start, _, replies) =>
      if id < |q.rows| && Due(q.rows[id], start) && ReplyFor(replies, id, start).ok
      then [ReplyFor(replies, id, start).at] else []
    case _ => []
  }

  function Successes(q: Queue, evs: seq<Event>, id: nat): seq<nat>
    decreases |evs|
  {
    if evs == [] then [] else SuccessesNow(q, evs[0], id) + Successes(Next(q, evs[0]), evs[1..], id)
  }

  /** The entry as the successful posts so far leave it. */
  predicate DeliveredBy(q: Queue, id: nat, times: seq<nat>) {
    if id >= |q.rows| then times == []
    else
      && |times| <= 1 && (q.rows[id].status == Delivered <==> times != [])
      && q.rows[id].deliveredAt == if times == [] then None else Some(times[0])
  }

  lemma SuccessDelivers(q: Queue, e: Event, id: nat, times: seq<nat>)
    requires DeliveredBy(q, id, times)
    ensures DeliveredBy(Next(q, e), id, times + SuccessesNow(q, e, id))
  {
  }

  lemma {:induction false} RunDelivers(q: Queue, evs: seq<Event>, id: nat, times: seq<nat>)
    requires DeliveredBy(q, id, times)
    ensures DeliveredBy(After(q, evs), id, times + Successes(q, evs, id))
    decreases |evs|
  {
    if evs == [] {
      assert times + [] == times;
    } else {
      var now, later := SuccessesNow(q, evs[0], id), Successes(Next(q, evs[0]), evs[1..], id);
      SuccessDelivers(q, evs[0], id, times);
      RunDelivers(Next(q, evs[0]), evs[1..], id, times + now);
      assert times + now + later == times + (now + later);
    }
  }

  /** Delivered exactly once: over every run, at most one post of an entry succeeds, and the entry
      is delivered exactly when one did, at the time of that reply. */
  lemma DeliveredExactlyOnce(evs: seq<Event>, id: nat)
    ensures var q, times := After(EMPTY, evs), Successes(EMPTY, evs, id);
      && |times| <= 1
      && (id < |q.rows| ==> (q.rows[id].status == Delivered <==> |times| == 1))
      && (id < |q.rows| ==> q.rows[id].deliveredAt == if |times| == 1 then Some(times[0]) else None)
  {
    RunDelivers(EMPTY, evs, id, []);
    assert [] + Successes(EMPTY, evs, id) == Successes(EMPTY, evs, id);
  }

  /** A manually retried dead letter starts afresh and is due from that moment. */
  lemma RetriedIsDue(q: Queue, id: nat, at: nat, start: nat)
    requires id < |q.rows| && q.rows[id].status == DeadLetter
    ensures var e := RetryDeadLetter(q, id, at).rows[id];
      && (Due(e, start) <==> at <= start)
      && e.attempt == 0 && e.retryCount == 0 && e.deadLetterAt == None
      && e.createdAt == q.rows[id].createdAt && e.cleared == q.rows[id].cleared
  {
  }

  // ---------------------------------------------------------------- what cleanup flags

  /** A cleanup flags exactly the delivered and dead entries older than the given days, and changes
      nothing else. */
  lemma CleanupFlags(q: Queue, at: nat, days: nat, i: nat)
    requires i < |q.rows|
    ensures |Cleanup(q, at, days).rows| == |q.rows| && Cleanup(q, at, days).notices == q.notices
    ensures var e, e' := q.rows[i], Cleanup(q, at, days).rows[i];
      && (e'.cleared <==> e.cleared || (e.status != Pending && e.createdAt + days * 24 * 60 * MINUTE < at))
      && e'.(cleared := e.cleared) == e
  {
  }

  /** The entries that a cleanup flags, as positions. */
  function Flagged(rows: seq<Entry>, at: nat, days: nat): set<nat> {
    set i: nat | i < |rows| && rows[i].status != Pending && rows[i].createdAt + days * 24 * 60 * MINUTE < at
  }

  /** The count a cleanup reports is the number of old delivered and dead entries. */
  lemma {:induction false} CleanupCounts(rows: seq<Entry>, at: nat, days: nat)
    ensures ClearableCount(rows, at - days * DAY_MS) == |Flagged(rows, at, days)|
  {
    if rows == [] {
      assert Flagged(rows, at, days) == {};
    } else {
      var n := |rows| - 1;
      CleanupCounts(rows[..n], at, days);
      assert Flagged(rows, at, days)
          == Flagged(rows[..n], at, days) + if Clearable(rows[n], at - days * DAY_MS) then {n} else {};
    }
  }

  lemma ClearedStep(q: Queue, e: Event, id: nat)
    requires id < |q.rows| && (q.rows[id].cleared ==> q.rows[id].status != Pending) && e != RetryAt(id, Started(e))
    ensures id < |Next(q, e).rows| && (Next(q, e).rows[id].cleared ==> Next(q, e).rows[id].status != Pending)
  {
  }

  /** Work is never cleared: over any run in which the entry is not manually retried, a flagged entry
      is delivered or dead. */
  lemma {:induction false} ClearedIsSettled(q: Queue, evs: seq<Event>, id: nat)
    requires id < |q.rows| && (q.rows[id].cleared ==> q.rows[id].status != Pending) && NeverRetried(evs, id)
    ensures id < |After(q, evs).rows|
    ensures After(q, evs).rows[id].cleared ==> After(q, evs).rows[id].status != Pending
    decreases |evs|
  {
    if evs != [] {
      ClearedStep(q, evs[0], id);
      ClearedIsSettled(Next(q, evs[0]), evs[1..], id);
    }
  }

  // ---------------------------------------------------------------- how early an entry can die

  /** The waits still ahead of an entry after its next attempt. */
  function WaitsAfter(attempt: nat): nat
    decreases MAX_RETRIES - attempt
  {
    if attempt + 1 >= MAX_RETRIES then 0 else Delay(attempt + 1) + WaitsAfter(attempt + 1)
  }

  /** The earliest time, seen at `t`, at which the entry can be dead-lettered. */
  function EarliestDeath(e: Entry, t: nat): nat {
    (if t > e.nextRetryAt then t else e.nextRetryAt) + WaitsAfter(e.attempt)
  }

  lemma PendingStep(q: Queue, e: Event, id: nat, t: nat)
    requires id < |q.rows| && q.rows[id].status == Pending && t <= Started(e) && Timely(e)
    ensures id < |Next(q, e).rows|
    ensures var row := Next(q, e).rows[id];
      && (row.status == Pending ==> EarliestDeath(q.rows[id], t) <= EarliestDeath(row, Ended(e)))
      && (row.status == DeadLetter ==>
            row.deadLetterAt.Some? && EarliestDeath(q.rows[id], t) <= row.deadLetterAt.value)
  {
  }

  lemma DeadStep(q: Queue, e: Event, id: nat)
    requires id < |q.rows| && q.rows[id].status == DeadLetter && e != RetryAt(id, Started(e))
    ensures id < |Next(q, e).rows|
    ensures Next(q, e).rows[id].status == DeadLetter && Next(q, e).rows[id].deadLetterAt == q.rows[id].deadLetterAt
  {
  }

  lemma {:induction false} DeadStays(q: Queue, evs: seq<Event>, id: nat)
    requires id < |q.rows| && q.rows[id].status == DeadLetter && NeverRetried(evs, id)
    ensures id < |After(q, evs).rows|
    ensures After(q, evs).rows[id].status == DeadLetter
    ensures After(q, evs).rows[id].deadLetterAt == q.rows[id].deadLetterAt
    decreases |evs|
  {
    if evs != [] {
      DeadStep(q, evs[0], id);
      DeadStays(Next(q, evs[0]), evs[1..], id);
    }
  }

  /** No run dead-letters a pending entry before its earliest death. */
  lemma {:induction false} NeverDeadEarlier(q: Queue, evs: seq<Event>, id: nat, t: nat)
    requires id < |q.rows| && q.rows[id].status == Pending && Sequential(evs, t) && NeverRetried(evs, id)
    ensures id < |After(q, evs).rows|
    ensures var row := After(q, evs).rows[id];
      row.status == DeadLetter ==> row.deadLetterAt.Some? && EarliestDeath(q.rows[id], t) <= row.deadLetterAt.value
    decreases |evs|
  {
    if evs != [] {
      PendingStep(q, evs[0], id, t);
      var q' := Next(q, evs[0]);
      match q'.rows[id].status {
        case Pending => NeverDeadEarlier(q', evs[1..], id, Ended(evs[0]));
        case Delivered => DeliveredIsFinal(q', evs[1..], id);
        case DeadLetter => DeadStays(q', evs[1..], id);
      }
    }
  }

  function NextTry(e: Entry, t: nat): nat {
    if t > e.nextRetryAt then t else e.nextRetryAt
  }

  /** The run in which every delivery fails at once and every pass comes as early as it can. */
  function WorstRun(q: Queue, id: nat, t: nat): seq<Event>
    requires id < |q.rows| && q.rows[id].status == Pending && q.rows[id].attempt < MAX_RETRIES
    decreases MAX_RETRIES - q.rows[id].attempt
  {
    var start := NextTry(q.rows[id], t);
    var q' := Pass(q, start, []);
    [PassAt(start, start, [])] + if q'.rows[id].status == Pending then WorstRun(q', id, start) else []
  }

  /** What the first pass of that run does to the entry. */
  lemma WorstPass(q: Queue, id: nat, t: nat)
    requires id < |q.rows| && q.rows[id].status == Pending && q.rows[id].attempt < MAX_RETRIES
    ensures var e, start := q.rows[id], NextTry(q.rows[id], t);
      var e' := Pass(q, start, []).rows[id];
      if e.attempt + 1 >= MAX_RETRIES
      then e'.status == DeadLetter && e'.deadLetterAt == Some(EarliestDeath(e, t))
      else e'.status == Pending && e'.attempt == e.attempt + 1 && EarliestDeath(e', start) == EarliestDeath(e, t)
  {
  }

  lemma FirstThen(q: Queue, e: Event, rest: seq<Event>)
    ensures After(q, [e] + rest) == After(Next(q, e), rest)
    ensures forall t: nat :: Sequential([e] + rest, t) <==> t <= Started(e) && Timely(e) && Sequential(rest, Ended(e))
  {
    assert ([e] + rest)[1..] == rest;
  }

  /** That run dead-letters the entry exactly at its earliest death. */
  lemma {:induction false} EarliestDeathIsReached(q: Queue, id: nat, t: nat)
    requires id < |q.rows| && q.rows[id].status == Pending && q.rows[id].attempt < MAX_RETRIES
    ensures var evs := WorstRun(q, id, t);
      && Sequential(evs, t) && NeverRetried(evs, id) && id < |After(q, evs).rows|
      && After(q, evs).rows[id].status == DeadLetter
      && After(q, evs).rows[id].deadLetterAt == Some(EarliestDeath(q.rows[id], t))
    decreases MAX_RETRIES - q.rows[id].attempt
  {
    var start := NextTry(q.rows[id], t);
    var q' := Pass(q, start, []);
    var first := PassAt(start, start, []);
    WorstPass(q, id, t);
    if q'.rows[id].status == Pending {
      EarliestDeathIsReached(q', id, start);
      FirstThen(q, first, WorstRun(q', id, start));
    } else {
      FirstThen(q, first, []);
      assert After(q', []) == q';
    }
  }

  /** No continuation without a manual retry dead-letters the entry before `limit`. */
  ghost predicate SafeUntil(q: Queue, id: nat, t: nat, limit: nat)
    requires id < |q.rows|
  {
    forall evs: seq<Event> :: Sequential(evs, t) && NeverRetried(evs, id) ==>
      var rows := After(q, evs).rows;
      id < |rows| && (rows[id].status == DeadLetter ==>
        rows[id].deadLetterAt.Some? && limit <= rows[id].deadLetterAt.value)
  }

  lemma SafeUntilIff(q: Queue, id: nat, t: nat, limit: nat)
    requires id < |q.rows| && q.rows[id].status == Pending && q.rows[id].attempt < MAX_RETRIES
    ensures SafeUntil(q, id, t, limit) <==> limit <= EarliestDeath(q.rows[id], t)
  {
    if limit <= EarliestDeath(q.rows[id], t) {
      forall evs: seq<Event> | Sequential(evs, t) && NeverRetried(evs, id)
        ensures var rows := After(q, evs).rows;
          id < |rows| && (rows[id].status == DeadLetter ==>
            rows[id].deadLetterAt.Some? && limit <= rows[id].deadLetterAt.value)
      {
        NeverDeadEarlier(q, evs, id, t);
      }
    } else {
      EarliestDeathIsReached(q, id, t);
      assert !(limit <= EarliestDeath(q.rows[id], t));
    }
  }

  /** An entry whose first delivery fails inside `enqueue` is not dead-lettered until 156 minutes
      after that failure, whatever happens next. */
  lemma SafeAfterEnqueue(q: Queue, at: nat, reply: Reply)
    requires !reply.ok
    ensures var q' := Enqueue(q, true, true, at, reply);
      |q.rows| < |q'.rows| && SafeUntil(q', |q.rows|, reply.at, reply.at + 156 * MINUTE)
  {
    var q' := Enqueue(q, true, true, at, reply);
    FourWaits();
    SafeUntilIff(q', |q.rows|, reply.at, reply.at + 156 * MINUTE);
  }

  lemma FourWaits()
    ensures WaitsAfter(0) == 156 * MINUTE && WaitsAfter(1) == 155 * MINUTE
  {
    assert WaitsAfter(4) == 0;
    assert WaitsAfter(3) == 120 * MINUTE;
    assert WaitsAfter(2) == 150 * MINUTE;
    assert WaitsAfter(1) == 155 * MINUTE;
  }

  /** A manually retried entry whose first delivery fails in a pass: the wait counts from the
      pass's start, so the 156 minutes after the failure are promised exactly when the failure
      came at that very start, or the pass went on for a minute after it. */
  lemma SafeAfterManualRetryIff(q: Queue, id: nat, start: nat, end: nat, replies: seq<Reply>)
    requires id < |q.rows| && Due(q.rows[id], start) && q.rows[id].attempt == 0
    requires Timely(PassAt(start, end, replies)) && !ReplyFor(replies, id, start).ok
    ensures var failedAt := ReplyFor(replies, id, start).at;
      SafeUntil(Pass(q, start, replies), id, end, failedAt + 156 * MINUTE)
      <==> failedAt == start || end >= failedAt + MINUTE
  {
    FourWaits();
    var failedAt := ReplyFor(replies, id, start).at;
    SafeUntilIff(Pass(q, start, replies), id, end, failedAt + 156 * MINUTE);
  }

  /** The failing run: a dead letter is manually retried, its first post fails five milliseconds
      into the pass, and it is dead again five milliseconds short of 156 minutes after that. */
  lemma ManualRetryDiesEarly(q: Queue, id: nat, at: nat)
    requires Retriable(q, id)
    ensures var failedAt := at + 5;
      var replies := seq(id + 1, _ => Reply(false, failedAt));
      var revived := RetryDeadLetter(q, id, at);
      var failed := Pass(revived, at, replies);
      && Timely(PassAt(at, failedAt, replies))
      && id < |failed.rows| && failed.rows[id].status == Pending && failed.rows[id].attempt == 1
      && var evs := WorstRun(failed, id, failedAt);
         && Sequential(evs, failedAt) && NeverRetried(evs, id) && id < |After(failed, evs).rows|
         && After(failed, evs).rows[id].status == DeadLetter
         && After(failed, evs).rows[id].deadLetterAt == Some(failedAt + 156 * MINUTE - 5)
  {
    var failedAt := at + 5;
    var replies := seq(id + 1, _ => Reply(false, failedAt));
    var failed := Pass(RetryDeadLetter(q, id, at), at, replies);
    assert ReplyFor(replies, id, at) == Reply(false, failedAt);
    FourWaits();
    EarliestDeathIsReached(failed, id, failedAt);
  }
}
