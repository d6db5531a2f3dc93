/** etmemd's side of the protocol: one message buffer, refilled and sent until the list is done. */
module MemdcdSender {
  import opened MemdcdProtocol

  /** The messages for the pages `rest` of a list of `total` pages. */
  function SegmentsFrom(pid: int, total: nat, rest: seq<Page>, first: bool): (ms: seq<Message>)
    ensures ms != [] && (rest != [] ==> ms[0].payload != [])
    decreases |rest|
  {
    if |rest| <= MAX_VMA_NUM then [Message(pid, total, if first then Start else End, rest)]
    else
      [Message(pid, total, if first then Start else Process, rest[..MAX_VMA_NUM])]
      + SegmentsFrom(pid, total, rest[MAX_VMA_NUM..], false)
  }

  function Segments(pid: int, pages: seq<Page>): seq<Message> {
    if pages == [] then [] else SegmentsFrom(pid, |pages|, pages, true)
  }

  /** Status by position: the first message is START even when it is also the last. */
  ghost predicate Tagged(ms: seq<Message>, first: bool) {
    forall k :: 0 <= k < |ms| ==>
      ms[k].status == if first && k == 0 then Start else if k == |ms| - 1 then End else Process
  }

  ghost predicate Sized(ms: seq<Message>) {
    forall k :: 0 <= k < |ms| ==>
      if k < |ms| - 1 then |ms[k].payload| == MAX_VMA_NUM else 0 < |ms[k].payload| <= MAX_VMA_NUM
  }

  lemma PayloadsPrepend(m: Message, ms: seq<Message>)
    ensures Payloads([m] + ms) == m.payload + Payloads(ms)
    decreases |ms|
  {
    var all := [m] + ms;
    if ms == [] {
      assert all[..|all| - 1] == [];
    } else {
      assert all[..|all| - 1] == [m] + ms[..|ms| - 1];
      PayloadsPrepend(m, ms[..|ms| - 1]);
    }
  }

  lemma {:induction false} SegmentsCut(pid: int, total: nat, rest: seq<Page>, first: bool)
    requires rest != []
    ensures var ms := SegmentsFrom(pid, total, rest, first);
      && Payloads(ms) == rest && Tagged(ms, first) && Sized(ms)
      && forall k :: 0 <= k < |ms| ==> ms[k].pid == pid && ms[k].total == total
    decreases |rest|
  {
    var ms := SegmentsFrom(pid, total, rest, first);
    if |rest| > MAX_VMA_NUM {
      var tail := rest[MAX_VMA_NUM..];
      SegmentsCut(pid, total, tail, false);
      PayloadsPrepend(ms[0], SegmentsFrom(pid, total, tail, false));
      assert rest == rest[..MAX_VMA_NUM] + tail;
      assert forall k :: 1 <= k < |ms| ==> ms[k] == SegmentsFrom(pid, total, tail, false)[k - 1];
    } else {
      assert ms == [] + [ms[0]];
    }
  }

  /** The pieces of a list join to the list, each within the buffer and full except perhaps the last;
      the first is tagged START, the last of several END, all others PROCESS. */
  lemma SegmentsPartition(pid: int, pages: seq<Page>)
    ensures var ms := Segments(pid, pages);
      && Payloads(ms) == pages && Tagged(ms, true) && Sized(ms)
      && |ms| == (|pages| + MAX_VMA_NUM - 1) / MAX_VMA_NUM
  {
    if pages != [] {
      SegmentsCut(pid, |pages|, pages, true);
      SegmentsCount(pid, |pages|, pages, true);
    }
  }

  lemma {:induction false} SegmentsCount(pid: int, total: nat, rest: seq<Page>, first: bool)
    requires rest != []
    ensures |SegmentsFrom(pid, total, rest, first)| == (|rest| + MAX_VMA_NUM - 1) / MAX_VMA_NUM
    decreases |rest|
  {
    if |rest| > MAX_VMA_NUM {
      SegmentsCount(pid, total, rest[MAX_VMA_NUM..], false);
    }
  }

  /** Where the sends stand: `sent` went out, and what is in the buffer together with the pages not yet
      read still has to go. */
  ghost predicate Underway(pid: int, pages: seq<Page>, sent: seq<Message>, buffered: seq<Page>, i: nat, status: Status) {
    && i <= |pages|
    && (buffered == [] ==> i < |pages|)
    && status in {Start, Process}
    && Segments(pid, pages) == sent + SegmentsFrom(pid, |pages|, buffered + pages[i..], status == Start)
  }

  lemma FlushFull(pid: int, pages: seq<Page>, sent: seq<Message>, buffered: seq<Page>, i: nat, status: Status)
    requires Underway(pid, pages, sent, buffered, i, status) && |buffered| == MAX_VMA_NUM && i < |pages|
    ensures Underway(pid, pages, sent + [Message(pid, |pages|, status, buffered)], [], i, Process)
  {
    var rest := buffered + pages[i..];
    assert rest[..MAX_VMA_NUM] == buffered && rest[MAX_VMA_NUM..] == pages[i..] == [] + pages[i..];
  }

  lemma TakePage(pid: int, pages: seq<Page>, sent: seq<Message>, buffered: seq<Page>, i: nat, status: Status)
    requires Underway(pid, pages, sent, buffered, i, status) && i < |pages|
    ensures Underway(pid, pages, sent, buffered + [pages[i]], i + 1, status)
  {
    hide SegmentsFrom;
    assert buffered + pages[i..] == (buffered + [pages[i]]) + pages[i + 1..];
  }

  lemma Begin(pid: int, pages: seq<Page>)
    requires pages != []
    ensures Underway(pid, pages, [], [], 0, Start)
  {
    hide SegmentsFrom;
    assert [] + pages[0..] == pages;
  }

  /** What is still to go out is never nothing: an unsent message is next. */
  lemma SentSoFar(pid: int, pages: seq<Page>, sent: seq<Message>, buffered: seq<Page>, i: nat, status: Status, m: Message)
    requires Underway(pid, pages, sent, buffered, i, status) && pages != []
    requires (i < |pages| && |buffered| == MAX_VMA_NUM && m == Message(pid, |pages|, status, buffered))
          || (i == |pages| && |buffered| <= MAX_VMA_NUM
              && m == Message(pid, |pages|, if status == Start then Start else End, buffered))
    ensures var ms := Segments(pid, pages);
      && |sent| < |ms| && ms[..|sent|] == sent && ms[..|sent| + 1] == sent + [m]
      && (i == |pages| ==> ms == sent + [m])
  {
    var rest := buffered + pages[i..];
    var left := SegmentsFrom(pid, |pages|, rest, status == Start);
    if i == |pages| {
      assert rest == buffered;
    } else {
      assert rest[..MAX_VMA_NUM] == buffered;
    }
    assert left[0] == m;
    assert (sent + left)[..|sent|] == sent && (sent + left)[|sent|] == left[0];
  }

  /**
   `memdcd_do_migrate`. The first `answered` sends succeed and the next one fails; `reached` says whether
   the message of the failing send got to memRouter all the same. What arrives is the cut of the list, up
   to that failure, and success is reported exactly when every send succeeded.
   */
  method DoMigrate(pid: int, pages: seq<Page>, answered: nat, reached: bool) returns (arrived: seq<Message>, ret: int)
    ensures var ms := Segments(pid, pages);
      if answered >= |ms| then ret == 0 && arrived == ms
      else ret == -1 && arrived == ms[..answered + if reached then 1 else 0]
  {
    hide Underway;
    hide Segments;
    arrived, ret := [], 0;
    if pages == [] {
      NothingToSend(pid);
      return;
    }
    var buffer := new Page[MAX_VMA_NUM](_ => Page(0, 0, 0));
    var i: nat, count: nat, status := 0, 0, Start;
    ghost var buffered: seq<Page> := [];
    Begin(pid, pages);
    while i < |pages|
      invariant 0 <= i <= |pages| && count == |buffered| <= MAX_VMA_NUM && buffer[..count] == buffered
      invariant |arrived| <= answered && ret == 0 && status in {Start, Process}
      invariant Underway(pid, pages, arrived, buffered, i, status)
      invariant count == MAX_VMA_NUM ==> i == |pages|
    {
      TakePage(pid, pages, arrived, buffered, i, status);
      buffer[count] := pages[i];
      buffered := buffered + [pages[i]];
      count, i := count + 1, i + 1;
      assert buffer[..count] == buffered;
      if count < MAX_VMA_NUM {
        continue;
      }
      if i == |pages| {
        break;
      }
      var msg := Message(pid, |pages|, status, buffer[..count]);
      SentSoFar(pid, pages, arrived, buffered, i, status, msg);
      if |arrived| == answered {
        if reached {
          arrived := arrived + [msg];
        }
        ret := -1;
        return;
      }
      FlushFull(pid, pages, arrived, buffered, i, status);
      arrived := arrived + [msg];
      count, status, buffered := 0, Process, [];
    }
    var msg := Message(pid, |pages|, if status != Start then End else status, buffer[..count]);
    SentSoFar(pid, pages, arrived, buffered, i, status, msg);
    if |arrived| < answered {
      arrived := arrived + [msg];
    } else {
      if reached {
        arrived := arrived + [msg];
      }
      ret := -1;
    }
  }

  lemma NothingToSend(pid: int)
    ensures Segments(pid, []) == []
  {
  }
}
