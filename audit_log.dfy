/** The account's audit log and its keyset pagination. The log is kept in the
    order the entries were written; the two database queries of `getLogs` are
    the functions AtOrBefore and After composed with ordering and a limit. */
module AuditLog {
  import opened Outcomes

  /** Entries shown on one page. */
  const PAGE_SIZE: nat := 10

  datatype LogEntryType =
    | PinCheckSuccess
    | PinCheckFailed
    | PinCheckBlocked
    | IrmaEnabled
    | IrmaBlocked
    | IrmaSession

  /** One audit event with its optional integer parameter and its timestamp in seconds. */
  datatype LogEntry = LogEntry(event: LogEntryType, param: Option<int>, time: int)

  /** A page of entries together with the cursor of the newer page and that of the older page. */
  datatype LogEntryList = LogEntryList(entries: seq<LogEntry>, prev: Option<int>, next: Option<int>)

  /** Timestamps never decrease along the log: entries are appended as time passes. */
  predicate Chronological(log: seq<LogEntry>)
  {
    forall i, j :: 0 <= i < j < |log| ==> log[i].time <= log[j].time
  }

  /** Timestamps never increase along s. */
  predicate NewestFirst(s: seq<LogEntry>)
  {
    forall i, j :: 0 <= i < j < |s| ==> s[j].time <= s[i].time
  }

  /** The entries with timestamp <= start, in log order. */
  function AtOrBefore(log: seq<LogEntry>, start: int): (r: seq<LogEntry>)
    ensures |r| <= |log|
    ensures forall i :: 0 <= i < |r| ==> r[i].time <= start
  {
    if log == [] then []
    else (if log[0].time <= start then [log[0]] else []) + AtOrBefore(log[1..], start)
  }

  /** The entries with timestamp > start, in log order. */
  function After(log: seq<LogEntry>, start: int): (r: seq<LogEntry>)
    ensures |r| <= |log|
    ensures forall i :: 0 <= i < |r| ==> start < r[i].time
  {
    if log == [] then []
    else (if start < log[0].time then [log[0]] else []) + After(log[1..], start)
  }

  function Reverse(s: seq<LogEntry>): (r: seq<LogEntry>)
    ensures |r| == |s|
    ensures forall i :: 0 <= i < |s| ==> r[i] == s[|s| - 1 - i]
  {
    if s == [] then [] else Reverse(s[1..]) + [s[0]]
  }

  /** At most the first n elements of s (a query's `limit(n)`). */
  function Take(s: seq<LogEntry>, n: nat): seq<LogEntry>
  {
    if |s| <= n then s else s[..n]
  }

  /** Query one of `getLogs`: timestamp <= start, newest first, at most `limit` rows. */
  function NewestAtOrBefore(log: seq<LogEntry>, start: int, limit: nat): (r: seq<LogEntry>)
    ensures |r| <= limit
    ensures forall i :: 0 <= i < |r| ==> r[i].time <= start
  {
    Take(Reverse(AtOrBefore(log, start)), limit)
  }

  /** Query two of `getLogs`: timestamp > start, oldest first, at most `limit` rows. */
  function OldestAfter(log: seq<LogEntry>, start: int, limit: nat): (r: seq<LogEntry>)
    ensures |r| <= limit
    ensures forall i :: 0 <= i < |r| ==> start < r[i].time
  {
    Take(After(log, start), limit)
  }

  /** The page `getLogs(start)` returns: one extra row is fetched only for its
      timestamp, the `next` cursor; `prev` is the last row of the second query. */
  function Paginate(log: seq<LogEntry>, start: int): (p: LogEntryList)
    ensures |p.entries| <= PAGE_SIZE
    ensures p.next.Some? ==> p.next.value <= start
    ensures p.prev.Some? ==> start < p.prev.value
  {
    var records := NewestAtOrBefore(log, start, PAGE_SIZE + 1);
    var prevRecords := OldestAfter(log, start, PAGE_SIZE);
    LogEntryList(
      if |records| == PAGE_SIZE + 1 then records[..PAGE_SIZE] else records,
      if |prevRecords| != 0 then Some(prevRecords[|prevRecords| - 1].time) else None,
      if |records| == PAGE_SIZE + 1 then Some(records[PAGE_SIZE].time) else None)
  }

  /** Appending an entry no older than the last one keeps the log chronological. */
  lemma AppendKeepsChronological(log: seq<LogEntry>, e: LogEntry)
    requires Chronological(log)
    requires log == [] || log[|log| - 1].time <= e.time
    ensures Chronological(log + [e])
  {
  }

  /** Every row of the first query is an entry of the log. */
  lemma {:induction false} AtOrBeforeSound(log: seq<LogEntry>, start: int)
    ensures forall e :: e in AtOrBefore(log, start) ==> e in log
  {
    if log != [] {
      AtOrBeforeSound(log[1..], start);
      assert log == [log[0]] + log[1..];
    }
  }

  /** Every entry of the log at or before start is a row of the first query. */
  lemma {:induction false} AtOrBeforeComplete(log: seq<LogEntry>, start: int)
    ensures forall e :: e in log && e.time <= start ==> e in AtOrBefore(log, start)
  {
    if log != [] {
      AtOrBeforeComplete(log[1..], start);
      assert log == [log[0]] + log[1..];
    }
  }

  /** The second query returns exactly the entries of the log after start. */
  lemma {:induction false} AfterMembers(log: seq<LogEntry>, start: int)
    ensures forall e :: e in After(log, start) <==> e in log && start < e.time
  {
    if log != [] {
      AfterMembers(log[1..], start);
      assert log == [log[0]] + log[1..];
    }
  }

  lemma ChronologicalTail(log: seq<LogEntry>)
    requires Chronological(log) && log != []
    ensures Chronological(log[1..])
  {
    var rest := log[1..];
    forall i, j | 0 <= i < j < |rest| ensures rest[i].time <= rest[j].time {
      assert rest[i] == log[i + 1] && rest[j] == log[j + 1];
    }
  }

  /** When every entry is later than start, none is at or before it. */
  lemma {:induction false} NothingBefore(rest: seq<LogEntry>, start: int)
    requires forall i :: 0 <= i < |rest| ==> start < rest[i].time
    ensures AtOrBefore(rest, start) == []
  {
    if rest != [] {
      assert forall i :: 0 <= i < |rest[1..]| ==> rest[1..][i] == rest[i + 1];
      NothingBefore(rest[1..], start);
    }
  }

  /** When no entry is later than start, the first query keeps the whole log. */
  lemma {:induction false} AllAtOrBefore(log: seq<LogEntry>, start: int)
    requires forall i :: 0 <= i < |log| ==> log[i].time <= start
    ensures AtOrBefore(log, start) == log
  {
    if log != [] {
      assert forall i :: 0 <= i < |log[1..]| ==> log[1..][i] == log[i + 1];
      AllAtOrBefore(log[1..], start);
      assert log == [log[0]] + log[1..];
    }
  }

  /** In a chronological log the entries at or before any instant form a prefix and
      the later ones the rest of the log. */
  lemma {:induction false} Split(log: seq<LogEntry>, start: int)
    requires Chronological(log)
    ensures AtOrBefore(log, start) + After(log, start) == log
  {
    if log != [] {
      var rest := log[1..];
      ChronologicalTail(log);
      Split(rest, start);
      if start < log[0].time {
        forall i | 0 <= i < |rest| ensures start < rest[i].time {
          assert rest[i] == log[i + 1];
        }
        NothingBefore(rest, start);
      }
      assert log == [log[0]] + rest;
    }
  }

  /** The index at which a chronological log splits at start. */
  lemma SplitPoint(log: seq<LogEntry>, start: int) returns (k: nat)
    requires Chronological(log)
    ensures k == |AtOrBefore(log, start)| <= |log|
    ensures AtOrBefore(log, start) == log[..k]
    ensures After(log, start) == log[k..]
    ensures forall i :: 0 <= i < k ==> log[i].time <= start
    ensures forall i :: k <= i < |log| ==> start < log[i].time
  {
    Split(log, start);
    k := |AtOrBefore(log, start)|;
    assert log[..k] == AtOrBefore(log, start);
    assert log[k..] == After(log, start);
    forall i | 0 <= i < k ensures log[i].time <= start {
      assert log[i] == AtOrBefore(log, start)[i];
    }
    forall i | k <= i < |log| ensures start < log[i].time {
      assert log[i] == After(log, start)[i - k];
    }
  }

  /** Both queries of a chronological log are chronological. */
  lemma ChronologicalQueries(log: seq<LogEntry>, start: int)
    requires Chronological(log)
    ensures Chronological(AtOrBefore(log, start))
    ensures Chronological(After(log, start))
  {
    var k := SplitPoint(log, start);
    var a, w := AtOrBefore(log, start), After(log, start);
    forall i, j | 0 <= i < j < |a| ensures a[i].time <= a[j].time {
      assert a[i] == log[i] && a[j] == log[j];
    }
    forall i, j | 0 <= i < j < |w| ensures w[i].time <= w[j].time {
      assert w[i] == log[k + i] && w[j] == log[k + j];
    }
  }

  lemma ReverseNewestFirst(s: seq<LogEntry>)
    requires Chronological(s)
    ensures NewestFirst(Reverse(s))
  {
    var r := Reverse(s);
    forall i, j | 0 <= i < j < |r| ensures r[j].time <= r[i].time {
      assert r[i] == s[|s| - 1 - i] && r[j] == s[|s| - 1 - j];
    }
  }

  /** The first query of a chronological log, newest first, has non-increasing timestamps. */
  lemma NewestFirstRecords(log: seq<LogEntry>, start: int)
    requires Chronological(log)
    ensures NewestFirst(Reverse(AtOrBefore(log, start)))
  {
    ChronologicalQueries(log, start);
    ReverseNewestFirst(AtOrBefore(log, start));
  }

  /** Where an entry at or before start sits in the newest-first records. */
  lemma NewestIndex(log: seq<LogEntry>, start: int, e: LogEntry) returns (m: nat)
    requires e in log && e.time <= start
    ensures m < |Reverse(AtOrBefore(log, start))| && Reverse(AtOrBefore(log, start))[m] == e
  {
    AtOrBeforeComplete(log, start);
    var a := AtOrBefore(log, start);
    assert e in a;
    var i :| 0 <= i < |a| && a[i] == e;
    m := |a| - 1 - i;
  }

  /** Every element of a reversed sequence is an element of the sequence. */
  lemma {:induction false} ReverseSound(s: seq<LogEntry>)
    ensures forall e :: e in Reverse(s) ==> e in s
  {
    if s != [] {
      ReverseSound(s[1..]);
      assert s == [s[0]] + s[1..];
    }
  }

  /** The page without its extra row is the first query limited to ten rows. */
  lemma PageIsQuery(log: seq<LogEntry>, start: int)
    ensures Paginate(log, start).entries == NewestAtOrBefore(log, start, PAGE_SIZE)
  {
    var r := Reverse(AtOrBefore(log, start));
    if |r| > PAGE_SIZE {
      assert NewestAtOrBefore(log, start, PAGE_SIZE + 1) == r[..PAGE_SIZE + 1];
      assert r[..PAGE_SIZE + 1][..PAGE_SIZE] == r[..PAGE_SIZE];
    }
  }

  /** The page: at most ten entries, the newest of those at or before the cursor,
      all from the log and none after the cursor. */
  lemma PageEntries(log: seq<LogEntry>, start: int)
    ensures var p := Paginate(log, start);
      && |p.entries| <= PAGE_SIZE
      && p.entries == NewestAtOrBefore(log, start, PAGE_SIZE)
      && (forall e :: e in p.entries ==> e in log && e.time <= start)
  {
    var a := AtOrBefore(log, start);
    var r := Reverse(a);
    PageIsQuery(log, start);
    AtOrBeforeSound(log, start);
    ReverseSound(a);
    var entries := Take(r, PAGE_SIZE);
    assert forall e :: e in entries ==> e in r;
    forall e | e in a ensures e.time <= start {
      var i :| 0 <= i < |a| && a[i] == e;
    }
  }

  /** The page runs newest first. */
  lemma PageNewestFirst(log: seq<LogEntry>, start: int)
    requires Chronological(log)
    ensures NewestFirst(Paginate(log, start).entries)
  {
    var p := Paginate(log, start);
    var r := Reverse(AtOrBefore(log, start));
    NewestFirstRecords(log, start);
    PageIsQuery(log, start);
    forall i, j | 0 <= i < j < |p.entries| ensures p.entries[j].time <= p.entries[i].time {
      assert p.entries[i] == r[i] && p.entries[j] == r[j];
    }
  }

  /** No entry at or before the cursor that is left off the page is newer than an entry on it. */
  lemma PageIsNewest(log: seq<LogEntry>, start: int)
    requires Chronological(log)
    ensures var p := Paginate(log, start);
      forall e, i :: e in log && e.time <= start && e !in p.entries && 0 <= i < |p.entries| ==>
        e.time <= p.entries[i].time
  {
    var p := Paginate(log, start);
    var r := Reverse(AtOrBefore(log, start));
    NewestFirstRecords(log, start);
    PageIsQuery(log, start);
    forall e, i | e in log && e.time <= start && e !in p.entries && 0 <= i < |p.entries|
      ensures e.time <= p.entries[i].time
    {
      var m := NewestIndex(log, start, e);
      assert p.entries[i] == r[i];
    }
  }

  /** The `next` cursor exists exactly when more than ten entries are at or before
      the cursor; it is then the eleventh-newest such timestamp, at or before the
      cursor and no later than any entry on the page. */
  lemma NextCursor(log: seq<LogEntry>, start: int)
    requires Chronological(log)
    ensures var p := Paginate(log, start);
      && (p.next.Some? <==> |AtOrBefore(log, start)| > PAGE_SIZE)
      && (p.next.Some? ==>
            && p.next.value == Reverse(AtOrBefore(log, start))[PAGE_SIZE].time
            && p.next.value <= start
            && (forall e :: e in p.entries ==> p.next.value <= e.time))
  {
    var p := Paginate(log, start);
    var a := AtOrBefore(log, start);
    var r := Reverse(a);
    if |a| > PAGE_SIZE {
      NewestFirstRecords(log, start);
      PageIsQuery(log, start);
      assert p.entries == r[..PAGE_SIZE];
      assert p.next.value == r[PAGE_SIZE].time;
      forall e | e in p.entries ensures p.next.value <= e.time {
        var i :| 0 <= i < PAGE_SIZE && r[i] == e;
      }
    }
  }

  /** Nothing is skipped: with a `next` cursor every entry at or before the cursor that
      is left off the page is at or before `next`, so the page at `next` can reach it. */
  lemma NextSkipsNothing(log: seq<LogEntry>, start: int)
    requires Chronological(log)
    ensures var p := Paginate(log, start);
      p.next.Some? ==>
        forall e :: e in log && e.time <= start && e !in p.entries ==> e.time <= p.next.value
  {
    var p := Paginate(log, start);
    var r := Reverse(AtOrBefore(log, start));
    if p.next.Some? {
      NewestFirstRecords(log, start);
      PageIsQuery(log, start);
      assert p.entries == r[..PAGE_SIZE];
      forall e | e in log && e.time <= start && e !in p.entries ensures e.time <= p.next.value {
        var m := NewestIndex(log, start, e);
      }
    }
  }

  /** Without a `next` cursor the page holds every entry at or before the cursor. */
  lemma LastPageComplete(log: seq<LogEntry>, start: int)
    ensures var p := Paginate(log, start);
      p.next.None? ==> forall e :: e in log && e.time <= start ==> e in p.entries
  {
    var p := Paginate(log, start);
    var r := Reverse(AtOrBefore(log, start));
    if p.next.None? {
      PageIsQuery(log, start);
      assert p.entries == r;
      forall e | e in log && e.time <= start ensures e in p.entries {
        var m := NewestIndex(log, start, e);
      }
    }
  }

  /** The `prev` cursor is absent exactly when no entry is later than the cursor;
      otherwise it is the newest of the (at most ten) oldest entries later than the
      cursor, and every later entry outside that window is at least as new. */
  lemma PrevCursor(log: seq<LogEntry>, start: int)
    requires Chronological(log)
    ensures var p := Paginate(log, start);
      && (p.prev.None? <==> forall e :: e in log ==> e.time <= start)
      && (p.prev.Some? ==>
            && start < p.prev.value
            && (exists e :: e in OldestAfter(log, start, PAGE_SIZE) && e.time == p.prev.value)
            && (forall e :: e in OldestAfter(log, start, PAGE_SIZE) ==> start < e.time <= p.prev.value)
            && (forall e :: e in log && start < e.time && e !in OldestAfter(log, start, PAGE_SIZE) ==>
                  p.prev.value <= e.time))
  {
    var p := Paginate(log, start);
    var w := After(log, start);
    var win := OldestAfter(log, start, PAGE_SIZE);
    AfterMembers(log, start);
    if w != [] {
      ChronologicalQueries(log, start);
      assert win == w[..|win|];
      var last := win[|win| - 1];
      assert last == w[|win| - 1] && last in w && last in win;
      forall e | e in win ensures start < e.time <= p.prev.value {
        var i :| 0 <= i < |win| && win[i] == e;
        assert w[i] == e;
      }
      forall e | e in log && start < e.time && e !in win ensures p.prev.value <= e.time {
        assert e in w;
        var m :| 0 <= m < |w| && w[m] == e;
      }
    }
  }

  /** Any log of twenty-five entries written at seconds 1..25: the page at 25 shows
      25 down to 16, with next cursor 15 and no prev cursor. */
  lemma FirstPageExample(log: seq<LogEntry>)
    requires |log| == 25 && forall i :: 0 <= i < 25 ==> log[i].time == i + 1
    ensures var p := Paginate(log, 25);
      && |p.entries| == 10 && (forall i :: 0 <= i < 10 ==> p.entries[i].time == 25 - i)
      && p.next == Some(15) && p.prev == None
  {
    var k := SplitPoint(log, 25);
    assert log[24].time == 25;
    var r := Reverse(AtOrBefore(log, 25));
    assert NewestAtOrBefore(log, 25, PAGE_SIZE + 1) == r[..11];
    assert forall i :: 0 <= i < 11 ==> r[i] == log[24 - i];
  }

  /** Following the next cursor: the page at 15 shows 15 down to 6, with next cursor 5
      and prev cursor 25, the timestamp that opens the newer page. */
  lemma SecondPageExample(log: seq<LogEntry>)
    requires |log| == 25 && forall i :: 0 <= i < 25 ==> log[i].time == i + 1
    ensures var p := Paginate(log, 15);
      && |p.entries| == 10 && (forall i :: 0 <= i < 10 ==> p.entries[i].time == 15 - i)
      && p.next == Some(5) && p.prev == Some(25)
  {
    var k := SplitPoint(log, 15);
    assert log[14].time == 15 && log[15].time == 16;
    var r := Reverse(AtOrBefore(log, 15));
    assert NewestAtOrBefore(log, 15, PAGE_SIZE + 1) == r[..11];
    assert forall i :: 0 <= i < 11 ==> r[i] == log[14 - i];
    assert OldestAfter(log, 15, PAGE_SIZE) == log[15..];
  }

  /** In a chronological log with a run of more than ten entries at second t, the
      newest eleven entries at or before t are all at second t. */
  lemma SameSecondNewest(log: seq<LogEntry>, t: int, k: nat, j: nat) returns (n: nat)
    requires Chronological(log)
    requires k + PAGE_SIZE < j <= |log|
    requires forall i :: k <= i < j ==> log[i].time == t
    ensures n == |AtOrBefore(log, t)| && AtOrBefore(log, t) == log[..n]
    ensures k + PAGE_SIZE < n <= |log|
    ensures forall i :: n - PAGE_SIZE - 1 <= i < n ==> log[i].time == t
  {
    n := SplitPoint(log, t);
    assert log[j - 1].time == t;
    assert log[k].time == t;
    forall i | n - PAGE_SIZE - 1 <= i < n ensures log[i].time == t {
      if k < i {
        assert log[k].time <= log[i].time;
      }
    }
  }

  /** When the eleventh-newest entry at or before t is itself at second t, the page at t
      has `next` cursor t. */
  lemma RunCursor(log: seq<LogEntry>, t: int, n: nat)
    requires n == |AtOrBefore(log, t)| && AtOrBefore(log, t) == log[..n]
    requires PAGE_SIZE < n <= |log| && log[n - 1 - PAGE_SIZE].time == t
    ensures Paginate(log, t).next == Some(t)
  {
    var r := Reverse(log[..n]);
    assert NewestAtOrBefore(log, t, PAGE_SIZE + 1) == r[..PAGE_SIZE + 1];
    assert r[PAGE_SIZE] == log[n - 1 - PAGE_SIZE];
  }

  /** With more than ten entries at or before t, the ten-row query at t returns ten of
      them: with the model's order for rows of equal time, the ten inserted last,
      newest first. */
  lemma RunEntries(log: seq<LogEntry>, t: int, n: nat)
    requires n == |AtOrBefore(log, t)| && AtOrBefore(log, t) == log[..n]
    requires PAGE_SIZE < n <= |log|
    ensures var q := NewestAtOrBefore(log, t, PAGE_SIZE);
      && |q| == PAGE_SIZE
      && (forall i :: 0 <= i < PAGE_SIZE ==> q[i] == log[n - 1 - i])
  {
    var r := Reverse(log[..n]);
    var q := NewestAtOrBefore(log, t, PAGE_SIZE);
    assert q == r[..PAGE_SIZE];
    forall i | 0 <= i < PAGE_SIZE ensures q[i] == log[n - 1 - i] {
      assert q[i] == r[i];
    }
  }

  /** Timestamps are whole seconds, so entries share them. When more than ten entries of
      a chronological log were written in one second t (the run log[k..j]; entries of
      other seconds may come before and after it), the page at t holds ten entries of
      that second and its `next` cursor is t itself, so following it asks for the same
      page again and at most ten entries of that second can be reached. Which ten those
      are follows from the order this model fixes for rows of equal time (newest
      inserted first); the queries themselves order by time only. */
  lemma OneSecondPageRepeats(log: seq<LogEntry>, t: int, k: nat, j: nat)
    requires Chronological(log)
    requires k + PAGE_SIZE < j <= |log|
    requires forall i :: k <= i < j ==> log[i].time == t
    ensures var p := Paginate(log, t);
      && p.next == Some(t)
      && |p.entries| == PAGE_SIZE
      && (forall i :: 0 <= i < PAGE_SIZE ==> p.entries[i].time == t)
      && (forall i :: 0 <= i < PAGE_SIZE ==> p.entries[i] == log[|AtOrBefore(log, t)| - 1 - i])
  {
    var n := SameSecondNewest(log, t, k, j);
    RunCursor(log, t, n);
    RunEntries(log, t, n);
    PageIsQuery(log, t);
  }
}
