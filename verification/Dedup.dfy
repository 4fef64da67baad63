/**
 `_Deduplicator` of src/ft_shadow_data_plane/central/normalize.py: a map of identities seen, pruned
 through a heap whose entries may be stale, against the map that simply forgets what is too old.
 */
module Dedup {
  import opened Base

  const WINDOW_NS := 600_000_000_000

  type Key = string
  type Hash = seq<int>

  datatype Sighting = Sighting(hash: Hash, at: nat)

  /** A heap entry: ordered by time first. */
  datatype Entry = Entry(at: nat, key: Key)

  datatype Event = Event(key: Key, hash: Hash, at: nat)

  datatype Answer = FRESH | DUPLICATE | CONFLICT

  // ---------------------------------------------------------------- the simple form

  /** What has been seen, and the latest time seen. */
  datatype Window = Window(seen: map<Key, Sighting>, watermark: nat)

  const NOTHING_SEEN := Window(map[], 0)

  function Recent(seen: map<Key, Sighting>, cutoff: int): map<Key, Sighting> {
    map key | key in seen && seen[key].at >= cutoff :: seen[key]
  }

  datatype Observed = Observed(window: Window, answer: Answer)

  /** `observe` without a heap: forget what is older than the window, then look the identity up. */
  function Observe(w: Window, e: Event): Observed {
    var watermark := Max(w.watermark, e.at);
    var seen := Recent(w.seen, watermark - WINDOW_NS);
    if e.key in seen && seen[e.key].hash != e.hash then Observed(Window(seen, watermark), CONFLICT)
    else Observed(Window(seen[e.key := Sighting(e.hash, e.at)], watermark), if e.key in seen then DUPLICATE else FRESH)
  }

  /** The answers to a sequence of events; a conflict raises and is the last answer. */
  function Answers(w: Window, events: seq<Event>): seq<Answer>
    decreases |events|
  {
    if events == [] then []
    else
      var first := Observe(w, events[0]);
      if first.answer.CONFLICT? then [CONFLICT] else [first.answer] + Answers(first.window, events[1..])
  }

  // ---------------------------------------------------------------- the object

  class Deduplicator {
    var seen: map<Key, Sighting>
    var timeline: multiset<Entry>
    var watermark: nat

    /** Every identity seen still has the heap entry that will remove it. */
    ghost predicate Valid()
      reads this
    {
      forall key | key in seen :: Entry(seen[key].at, key) in timeline
    }

    ghost function Value(): Window
      reads this
    {
      Window(seen, watermark)
    }

    constructor ()
      ensures Valid() && Value() == NOTHING_SEEN
    {
      seen, timeline, watermark := map[], multiset{}, 0;
    }

    /** `load`: the entries of a checkpoint, in file order. */
    constructor Load(entries: seq<Event>)
      ensures Valid() && Value() == Loaded(entries)
    {
      seen, timeline, watermark := map[], multiset{}, 0;
      new;
      for i := 0 to |entries|
        invariant Valid() && Value() == Loaded(entries[..i])
      {
        assert entries[..i + 1][..i] == entries[..i];
        var e := entries[i];
        seen := seen[e.key := Sighting(e.hash, e.at)];
        timeline := timeline + multiset{Entry(e.at, e.key)};
        watermark := Max(watermark, e.at);
      }
      assert entries[..|entries|] == entries;
    }

    /** `_prune`: pops the heap while its smallest time is before the cutoff. */
    method Prune(cutoff: int)
      requires Valid()
      modifies this`seen, this`timeline
      ensures Valid() && seen == Recent(old(seen), cutoff)
      ensures forall entry | entry in timeline :: entry.at >= cutoff
    {
      while exists entry: Entry :: entry in timeline && entry.at < cutoff
        invariant forall key | key in seen :: key in old(seen) && seen[key] == old(seen)[key] && Entry(seen[key].at, key) in timeline
        invariant forall key | key in old(seen) && key !in seen :: old(seen)[key].at < cutoff
        decreases |timeline|
      {
        ghost var some: Entry :| some in timeline && some.at < cutoff;
        EarliestExists(timeline, some);
        assert exists entry :: entry in timeline && Earliest(timeline, entry);
        var entry :| entry in timeline && Earliest(timeline, entry);
        var key := entry.key;
        assert entry.at < cutoff;
        timeline := timeline - multiset{entry};
        if key in seen && seen[key].at == entry.at {
          seen := seen - {key};
        }
      }
      assert forall key | key in seen :: Entry(seen[key].at, key) in timeline;
    }

    /** `observe`; CONFLICT where it raises. */
    method ObserveEvent(e: Event) returns (answer: Answer)
      requires Valid()
      modifies this
      ensures Valid()
      ensures Observed(Value(), answer) == Observe(old(Value()), e)
    {
      hide Recent;
      watermark := Max(watermark, e.at);
      Prune(watermark - WINDOW_NS);
      if e.key in seen && seen[e.key].hash != e.hash {
        return CONFLICT;
      }
      answer := if e.key in seen then DUPLICATE else FRESH;
      seen := seen[e.key := Sighting(e.hash, e.at)];
      timeline := timeline + multiset{Entry(e.at, e.key)};
    }

    /** `checkpoint`: what next day's events can still duplicate. */
    method Checkpoint(dayEnd: nat) returns (entries: map<Key, Sighting>)
      ensures entries == Recent(seen, dayEnd - WINDOW_NS)
    {
      entries := map[];
      var todo := seen.Keys;
      while todo != {}
        invariant todo <= seen.Keys
        invariant entries == (map key | key in seen && key !in todo && seen[key].at >= dayEnd - WINDOW_NS :: seen[key])
        decreases |todo|
      {
        var key :| key in todo;
        if seen[key].at >= dayEnd - WINDOW_NS {
          entries := entries[key := seen[key]];
        }
        todo := todo - {key};
      }
    }
  }

  predicate Earliest(timeline: multiset<Entry>, entry: Entry) {
    entry in timeline && forall other | other in timeline :: entry.at <= other.at
  }

  lemma {:induction false} EarliestExists(timeline: multiset<Entry>, some: Entry)
    requires some in timeline
    ensures exists entry :: Earliest(timeline, entry)
    decreases |timeline|
  {
    var rest := timeline - multiset{some};
    if another :| another in rest {
      EarliestExists(rest, another);
      var first :| Earliest(rest, first);
      EarlierOf(timeline, some, first);
    } else {
      assert forall other | other in timeline :: other == some || other in rest;
      assert Earliest(timeline, some);
    }
  }

  lemma EarlierOf(timeline: multiset<Entry>, some: Entry, first: Entry)
    requires some in timeline && Earliest(timeline - multiset{some}, first)
    ensures Earliest(timeline, if some.at <= first.at then some else first)
  {
    forall other | other in timeline
      ensures other == some || other in timeline - multiset{some}
    {
    }
  }

  // ---------------------------------------------------------------- what a duplicate is

  predicate Ordered(events: seq<Event>) {
    forall i, j :: 0 <= i < j < |events| ==> events[i].at <= events[j].at
  }

  /** Event `j` has the identity of event `i` and is at most the window older. */
  predicate Repeats(events: seq<Event>, j: int, i: int) {
    0 <= j < i < |events| && events[j].key == events[i].key && events[i].at - events[j].at <= WINDOW_NS
  }

  ghost predicate HasRepeat(events: seq<Event>, i: int) {
    exists j :: Repeats(events, j, i)
  }

  ghost predicate HasConflict(events: seq<Event>, i: int) {
    exists j :: Repeats(events, j, i) && events[j].hash != events[i].hash
  }

  /** The answer that the events before event `i` call for. */
  ghost predicate Exact(answer: Answer, events: seq<Event>, i: int) {
    (answer.CONFLICT? <==> HasConflict(events, i)) && (answer.FRESH? <==> !HasRepeat(events, i))
  }

  /** Everything remembered is one of the first `n` events. */
  ghost predicate Remembered(w: Window, events: seq<Event>, n: int) {
    0 <= n <= |events| && forall key | key in w.seen :: Event(key, w.seen[key].hash, w.seen[key].at) in events[..n]
  }

  /** Event `e` is remembered, by itself or by a later one with its payload. */
  predicate Covered(w: Window, e: Event) {
    e.key in w.seen && w.seen[e.key].hash == e.hash && w.seen[e.key].at >= e.at
  }

  /** The window after the first `n` events: nothing recent is forgotten. */
  ghost predicate Tracks(w: Window, events: seq<Event>, n: int) {
    && 0 <= n <= |events| && Remembered(w, events, n)
    && w.watermark == (if n == 0 then 0 else events[n - 1].at)
    && (forall j | 0 <= j < n :: events[j].at >= w.watermark - WINDOW_NS ==> Covered(w, events[j]))
  }

  lemma SeenIsRepeat(w: Window, events: seq<Event>, n: int)
    requires Tracks(w, events, n) && n < |events| && events[n].key in Recent(w.seen, events[n].at - WINDOW_NS)
    ensures exists j :: Repeats(events, j, n) && events[j].hash == w.seen[events[n].key].hash
  {
    var e := events[n];
    assert Event(e.key, w.seen[e.key].hash, w.seen[e.key].at) in events[..n];
    var j :| 0 <= j < n && events[j] == Event(e.key, w.seen[e.key].hash, w.seen[e.key].at);
    assert Repeats(events, j, n);
  }

  lemma LooksBack(w: Window, events: seq<Event>, n: int)
    requires Ordered(events) && Tracks(w, events, n) && n < |events|
    ensures Exact(Observe(w, events[n]).answer, events, n)
  {
    var e := events[n];
    assert w.watermark <= e.at;
    var seen := Recent(w.seen, e.at - WINDOW_NS);
    if e.key in seen {
      SeenIsRepeat(w, events, n);
    }
    RepeatsAreSeen(w, events, n);
    hide Repeats, Tracks, Ordered;
  }

  lemma RepeatsAreSeen(w: Window, events: seq<Event>, n: int)
    requires Ordered(events) && Tracks(w, events, n) && n < |events|
    ensures forall j | Repeats(events, j, n) ::
              var seen := Recent(w.seen, events[n].at - WINDOW_NS);
              events[n].key in seen && seen[events[n].key].hash == events[j].hash
  {
    assert w.watermark <= events[n].at;
    forall j | Repeats(events, j, n)
      ensures Covered(w, events[j])
    {
    }
  }

  lemma RemembersOn(w: Window, events: seq<Event>, n: int)
    requires Remembered(w, events, n) && 0 <= n < |events| && !Observe(w, events[n]).answer.CONFLICT?
    ensures Remembered(Observe(w, events[n]).window, events, n + 1)
  {
    assert events[..n + 1] == events[..n] + [events[n]];
  }

  lemma CoversOn(w: Window, events: seq<Event>, n: int, j: int)
    requires Ordered(events) && Tracks(w, events, n) && n < |events| && !Observe(w, events[n]).answer.CONFLICT?
    requires 0 <= j <= n && events[j].at >= events[n].at - WINDOW_NS
    ensures Covered(Observe(w, events[n]).window, events[j])
  {
    assert w.watermark <= events[n].at;
    if j < n {
      assert Covered(w, events[j]);
    }
  }

  lemma TracksOn(w: Window, events: seq<Event>, n: int)
    requires Ordered(events) && Tracks(w, events, n) && n < |events| && !Observe(w, events[n]).answer.CONFLICT?
    ensures Tracks(Observe(w, events[n]).window, events, n + 1)
  {
    RemembersOn(w, events, n);
    forall j | 0 <= j <= n && events[j].at >= events[n].at - WINDOW_NS
      ensures Covered(Observe(w, events[n]).window, events[j])
    {
      CoversOn(w, events, n, j);
    }
    assert w.watermark <= events[n].at;
    assert Observe(w, events[n]).window.watermark == events[n].at;
    hide Covered, Remembered, Observe;
  }

  /**
   With nondecreasing receive times every event is answered by the events before it alone: CONFLICT
   when one of the same identity in the last 600 s had another payload, else DUPLICATE when there was
   one, else FRESH. There is an answer for every event up to the first conflict.
   */
  lemma AnswersAreExact(events: seq<Event>, i: nat)
    requires Ordered(events) && i < |Answers(NOTHING_SEEN, events)|
    ensures i < |events| && Exact(Answers(NOTHING_SEEN, events)[i], events, i)
  {
    assert events[0..] == events;
    AnswersFrom(NOTHING_SEEN, events, 0, i);
  }

  lemma {:induction false} AnswersFrom(w: Window, events: seq<Event>, n: nat, i: nat)
    requires Ordered(events) && Tracks(w, events, n) && i < |Answers(w, events[n..])|
    ensures n + i < |events| && Exact(Answers(w, events[n..])[i], events, n + i)
    decreases i
  {
    hide Tracks, Exact, Observe, Ordered;
    assert events[n..] != [] by {
      TracksWithin(w, events, n);
    }
    assert events[n..][0] == events[n] && events[n..][1..] == events[n + 1..];
    LooksBack(w, events, n);
    if i > 0 {
      TracksOn(w, events, n);
      AnswersFrom(Observe(w, events[n]).window, events, n + 1, i - 1);
    }
  }

  lemma TracksWithin(w: Window, events: seq<Event>, n: int)
    requires Tracks(w, events, n)
    ensures n <= |events|
  {
  }

  /** The answers stop early only at a conflict. */
  lemma {:induction false} AnswersAreAll(w: Window, events: seq<Event>)
    ensures var answers := Answers(w, events);
            && |answers| <= |events|
            && (forall i | 0 <= i < |answers| :: answers[i].CONFLICT? ==> i == |answers| - 1)
            && (|answers| < |events| ==> answers != [] && answers[|answers| - 1].CONFLICT?)
    decreases |events|
  {
    hide Observe;
    if events != [] {
      AnswersAreAll(Observe(w, events[0]).window, events[1..]);
    }
  }

  // ---------------------------------------------------------------- the checkpoint

  /** What `load` makes of the entries. */
  function Loaded(entries: seq<Event>): Window
    decreases |entries|
  {
    if entries == [] then NOTHING_SEEN
    else
      var n := |entries| - 1;
      var before := Loaded(entries[..n]);
      Window(before.seen[entries[n].key := Sighting(entries[n].hash, entries[n].at)], Max(before.watermark, entries[n].at))
  }

  /** The file lists the checkpoint's entries, each once, in any order. */
  ghost predicate ListsOnce(entries: seq<Event>, saved: map<Key, Sighting>) {
    && (forall e | e in entries :: e.key in saved && saved[e.key] == Sighting(e.hash, e.at))
    && (forall key | key in saved :: Event(key, saved[key].hash, saved[key].at) in entries)
  }

  lemma {:induction false} LoadedFrom(entries: seq<Event>, saved: map<Key, Sighting>, bound: nat)
    requires forall e | e in entries :: e.key in saved && saved[e.key] == Sighting(e.hash, e.at) && e.at <= bound
    ensures forall key | key in Loaded(entries).seen :: key in saved && Loaded(entries).seen[key] == saved[key]
    ensures Loaded(entries).watermark <= bound
    decreases |entries|
  {
    if entries != [] {
      var n := |entries| - 1;
      assert forall e | e in entries[..n] :: e in entries;
      LoadedFrom(entries[..n], saved, bound);
      assert entries[n] in entries;
    }
  }

  lemma {:induction false} LoadedHas(entries: seq<Event>, e: Event)
    requires e in entries
    ensures e.key in Loaded(entries).seen
    decreases |entries|
  {
    var n := |entries| - 1;
    if e != entries[n] {
      assert e in entries[..n];
      LoadedHas(entries[..n], e);
    }
  }

  lemma RestoredWindow(w: Window, dayEnd: nat, entries: seq<Event>)
    requires ListsOnce(entries, Recent(w.seen, dayEnd - WINDOW_NS))
    requires forall key | key in w.seen :: w.seen[key].at <= dayEnd
    ensures Loaded(entries).seen == Recent(w.seen, dayEnd - WINDOW_NS)
    ensures Loaded(entries).watermark <= dayEnd
  {
    var saved := Recent(w.seen, dayEnd - WINDOW_NS);
    LoadedFrom(entries, saved, dayEnd);
    forall key | key in saved
      ensures key in Loaded(entries).seen
    {
      LoadedHas(entries, Event(key, saved[key].hash, saved[key].at));
    }
  }

  /**
   The deduplicator restored from a day's checkpoint answers every sequence of next-day events as the
   original would have: everything it dropped is out of the window from the first event on.
   */
  lemma RestoredAnswersAlike(w: Window, dayEnd: nat, entries: seq<Event>, events: seq<Event>)
    requires ListsOnce(entries, Recent(w.seen, dayEnd - WINDOW_NS))
    requires w.watermark <= dayEnd && forall key | key in w.seen :: w.seen[key].at <= dayEnd
    requires events != [] ==> events[0].at >= dayEnd
    ensures Answers(Loaded(entries), events) == Answers(w, events)
  {
    RestoredWindow(w, dayEnd, entries);
    if events != [] {
      ForgottenAnyway(w, Loaded(entries), dayEnd, events[0]);
      hide Observe, Loaded, ListsOnce, Recent;
    }
  }

  /** What is out of the window at the end of the day is out of it for every later event. */
  lemma ForgottenAnyway(w: Window, restored: Window, dayEnd: nat, e: Event)
    requires restored.seen == Recent(w.seen, dayEnd - WINDOW_NS)
    requires w.watermark <= dayEnd && restored.watermark <= dayEnd && dayEnd <= e.at
    ensures Observe(restored, e) == Observe(w, e)
  {
    var cutoff := e.at - WINDOW_NS;
    assert Recent(Recent(w.seen, dayEnd - WINDOW_NS), cutoff) == Recent(w.seen, cutoff);
    hide Recent;
  }

  /** The window after events that raised nothing. */
  function Final(w: Window, events: seq<Event>): Window
    decreases |events|
  {
    if events == [] then w else Final(Observe(w, events[0]).window, events[1..])
  }

  predicate Quiet(answers: seq<Answer>) {
    forall i | 0 <= i < |answers| :: !answers[i].CONFLICT?
  }

  ghost predicate Within(w: Window, dayEnd: nat) {
    w.watermark <= dayEnd && forall key | key in w.seen :: w.seen[key].at <= dayEnd
  }

  lemma WithinNext(w: Window, e: Event, dayEnd: nat)
    requires Within(w, dayEnd) && e.at <= dayEnd
    ensures Within(Observe(w, e).window, dayEnd)
  {
  }

  lemma QuietFirst(w: Window, today: seq<Event>)
    requires today != [] && Quiet(Answers(w, today))
    ensures var first := Observe(w, today[0]); var rest := Answers(first.window, today[1..]);
            !first.answer.CONFLICT? && Answers(w, today) == [first.answer] + rest && Quiet(rest)
  {
    hide Observe;
    var first := Observe(w, today[0]);
    var rest := Answers(first.window, today[1..]);
    assert Answers(w, today)[0] == first.answer;
    assert forall i | 0 <= i < |rest| :: rest[i] == ([first.answer] + rest)[i + 1];
  }

  lemma AnswersStep(w: Window, e: Event, rest: seq<Event>)
    requires !Observe(w, e).answer.CONFLICT?
    ensures Answers(w, [e] + rest) == [Observe(w, e).answer] + Answers(Observe(w, e).window, rest)
  {
    hide Observe;
    assert ([e] + rest)[1..] == rest;
  }

  lemma {:induction false} FinalWithin(w: Window, today: seq<Event>, dayEnd: nat)
    requires Within(w, dayEnd) && forall e | e in today :: e.at < dayEnd
    ensures Within(Final(w, today), dayEnd)
    decreases |today|
  {
    hide Observe, Within;
    if today != [] {
      WithinNext(w, today[0], dayEnd);
      FinalWithin(Observe(w, today[0]).window, today[1..], dayEnd);
    }
  }

  lemma {:induction false} AnswersConcat(w: Window, today: seq<Event>, tomorrow: seq<Event>)
    requires Quiet(Answers(w, today))
    ensures Answers(w, today + tomorrow) == Answers(w, today) + Answers(Final(w, today), tomorrow)
    decreases |today|
  {
    if today == [] {
      assert today + tomorrow == tomorrow;
    } else {
      hide Observe, Quiet, Answers, Final;
      QuietFirst(w, today);
      FinalStep(w, today);
      FirstApart(today, tomorrow);
      var first := Observe(w, today[0]);
      AnswersConcat(first.window, today[1..], tomorrow);
      AnswersStep(w, today[0], today[1..] + tomorrow);
      Regroup([first.answer], Answers(first.window, today[1..]), Answers(Final(w, today), tomorrow));
    }
  }

  lemma FinalStep(w: Window, events: seq<Event>)
    requires events != []
    ensures Final(w, events) == Final(Observe(w, events[0]).window, events[1..])
  {
    hide Observe;
  }

  lemma FirstApart(today: seq<Event>, tomorrow: seq<Event>)
    requires today != []
    ensures today + tomorrow == [today[0]] + (today[1..] + tomorrow)
  {
  }

  lemma Regroup(a: seq<Answer>, b: seq<Answer>, c: seq<Answer>)
    ensures a + (b + c) == (a + b) + c
  {
  }

  /** Two days cut by a checkpoint are answered as one uninterrupted stream. */
  lemma DaysAnswerAsOne(today: seq<Event>, tomorrow: seq<Event>, dayEnd: nat, entries: seq<Event>)
    requires (forall e | e in today :: e.at < dayEnd) && (forall e | e in tomorrow :: e.at >= dayEnd)
    requires Quiet(Answers(NOTHING_SEEN, today))
    requires ListsOnce(entries, Recent(Final(NOTHING_SEEN, today).seen, dayEnd - WINDOW_NS))
    ensures Answers(NOTHING_SEEN, today + tomorrow) == Answers(NOTHING_SEEN, today) + Answers(Loaded(entries), tomorrow)
  {
    FinalWithin(NOTHING_SEEN, today, dayEnd);
    AnswersConcat(NOTHING_SEEN, today, tomorrow);
    RestoredAnswersAlike(Final(NOTHING_SEEN, today), dayEnd, entries, tomorrow);
  }
}
