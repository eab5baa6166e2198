/**
 Hash chains: the custody log of src/evidence/evidenceRegistry.js, trimmed behind an anchor, and what
 its checking loop accepts. SHA-256 is a constructor over everything it digests, so it is injective.
 */
module HashChain {
  import opened Prelude

  datatype Digest<T> = Sha256(sequence: nat, body: T, previous: Option<Digest<T>>)

  datatype Event<T> = Event(sequence: nat, body: T, previousHash: Option<Digest<T>>, hash: Digest<T>)

  datatype Anchor<T> = Anchor(sequence: nat, hash: Digest<T>)

  function NewEvent<T>(sequence: nat, body: T, previous: Option<Digest<T>>): Event<T> {
    Event(sequence, body, previous, Sha256(sequence, body, previous))
  }

  /** Where a chain starts: the sequence and hash of the event before its first. */
  datatype Base<T> = Base(sequence: nat, hash: Option<Digest<T>>)

  function Origin<T>(): Base<T> {
    Base(0, None)
  }

  function Behind<T>(anchor: Option<Anchor<T>>): Base<T> {
    if anchor.Some? then Base(anchor.value.sequence, Some(anchor.value.hash)) else Origin()
  }

  /** The hash the event at this index has to follow. */
  function HashBefore<T>(base: Base<T>, events: seq<Event<T>>, k: nat): Option<Digest<T>>
    requires k <= |events|
  {
    if k == 0 then base.hash else Some(events[k - 1].hash)
  }

  ghost predicate Links<T>(base: Base<T>, events: seq<Event<T>>, k: nat)
    requires k < |events|
  {
    events[k] == NewEvent(base.sequence + k + 1, events[k].body, HashBefore(base, events, k))
  }

  ghost predicate Linked<T>(base: Base<T>, events: seq<Event<T>>) {
    forall k :: 0 <= k < |events| ==> Links(base, events, k)
  }

  /** What the checking loop is meant to accept. */
  ghost predicate Accepted<T>(base: Base<T>, events: seq<Event<T>>, sequence: nat, head: Option<Digest<T>>) {
    && Linked(base, events)
    && sequence == base.sequence + |events|
    && head == HashBefore(base, events, |events|)
  }

  // ----- trimming -----

  /** The untrimmed log: every event ever appended. */
  ghost predicate IsFull<T>(full: seq<Event<T>>, head: Option<Digest<T>>) {
    Accepted(Origin(), full, |full|, head)
  }

  function BaseAt<T>(full: seq<Event<T>>, dropped: nat): Base<T>
    requires dropped <= |full|
  {
    if dropped == 0 then Origin() else Base(full[dropped - 1].sequence, Some(full[dropped - 1].hash))
  }

  /** Wherever the log is cut, the rest behind the event before the cut is accepted. */
  lemma SuffixAccepted<T>(full: seq<Event<T>>, head: Option<Digest<T>>, dropped: nat)
    requires IsFull(full, head) && dropped <= |full|
    ensures Accepted(BaseAt(full, dropped), full[dropped..], |full|, head)
  {
    var base, kept := BaseAt(full, dropped), full[dropped..];
    assert dropped > 0 ==> Links(Origin(), full, dropped - 1);
    forall k | 0 <= k < |kept| ensures Links(base, kept, k) {
      assert Links(Origin(), full, dropped + k);
    }
  }

  lemma FullAfterAppend<T>(full: seq<Event<T>>, head: Option<Digest<T>>, event: Event<T>)
    requires IsFull(full, head) && event == NewEvent(|full| + 1, event.body, head)
    ensures IsFull(full + [event], Some(event.hash))
    ensures forall dropped :: 0 <= dropped <= |full| ==> BaseAt(full + [event], dropped) == BaseAt(full, dropped)
  {
    var full' := full + [event];
    forall k | 0 <= k < |full'| ensures Links(Origin(), full', k) {
      if k < |full| {
        assert Links(Origin(), full, k);
      }
    }
  }

  lemma KeptAfterCut<T>(full: seq<Event<T>>, dropped: nat, events: seq<Event<T>>, cut: nat)
    requires dropped <= |full| && events == full[dropped..] && 0 < cut <= |events|
    ensures events[cut..] == full[dropped + cut..]
    ensures BaseAt(full, dropped + cut) == Base(events[cut - 1].sequence, Some(events[cut - 1].hash))
  {
  }

  // ----- what a head commits to -----

  /** Two accepted chains with the same head and sequence agree on every event both still hold,
      however differently they were trimmed. */
  lemma {:induction false} SameHeadSameEvents<T>(base: Base<T>, events: seq<Event<T>>, base': Base<T>,
                                                 events': seq<Event<T>>, sequence: nat, head: Option<Digest<T>>,
                                                 back: nat)
    requires Accepted(base, events, sequence, head) && Accepted(base', events', sequence, head)
    requires back < |events| && back < |events'|
    ensures events[|events| - 1 - back] == events'[|events'| - 1 - back]
    decreases back
  {
    var k, k' := |events| - 1 - back, |events'| - 1 - back;
    assert Links(base, events, k) && Links(base', events', k');
    if back > 0 {
      SameHeadSameEvents(base, events, base', events', sequence, head, back - 1);
      assert Links(base, events, k + 1) && Links(base', events', k' + 1);
    }
  }

  /** With the same start they are identical event by event. */
  lemma AcceptedChainsIdentical<T>(base: Base<T>, events: seq<Event<T>>, events': seq<Event<T>>,
                                   sequence: nat, head: Option<Digest<T>>)
    requires Accepted(base, events, sequence, head) && Accepted(base, events', sequence, head)
    ensures events == events'
  {
    forall k | 0 <= k < |events| ensures events[k] == events'[k] {
      SameHeadSameEvents(base, events, base, events', sequence, head, |events| - 1 - k);
    }
  }

  lemma SuffixOfFull<T>(full: seq<Event<T>>, base: Base<T>, events: seq<Event<T>>, head: Option<Digest<T>>)
    requires IsFull(full, head) && Accepted(base, events, |full|, head)
    ensures |events| <= |full| && events == full[|full| - |events|..]
  {
    var dropped := |full| - |events|;
    forall k | 0 <= k < |events| ensures events[k] == full[dropped..][k] {
      SameHeadSameEvents(base, events, Origin(), full, |full|, head, |events| - 1 - k);
    }
  }

  lemma BaseOfSuffix<T>(full: seq<Event<T>>, base: Base<T>, events: seq<Event<T>>, head: Option<Digest<T>>)
    requires events != [] && |events| <= |full| && events == full[|full| - |events|..]
    requires IsFull(full, head) && Accepted(base, events, |full|, head)
    ensures base.sequence == |full| - |events|
    ensures base.hash == HashBefore(Origin(), full, |full| - |events|)
  {
    assert Links(base, events, 0) && Links(Origin(), full, |full| - |events|);
    assert events[0] == full[|full| - |events|];
  }

  /** A chain that is accepted under the head of the untrimmed log holds the log's true last events, and
      its anchor is the event before them: history cannot be rewritten without changing the head. */
  lemma HeadCommitsToHistory<T>(full: seq<Event<T>>, base: Base<T>, events: seq<Event<T>>, head: Option<Digest<T>>)
    requires IsFull(full, head) && Accepted(base, events, |full|, head)
    requires events != []
    ensures |events| <= |full|
    ensures var dropped := |full| - |events|;
            && events == full[dropped..]
            && base.sequence == dropped
            && base.hash == HashBefore(Origin(), full, dropped)
  {
    SuffixOfFull(full, base, events, head);
    BaseOfSuffix(full, base, events, head);
  }

  /** The checking loop shared by all chains: whether every event links to the one before. */
  method CheckLinks<T(==)>(base: Base<T>, events: seq<Event<T>>)
    returns (linked: bool, previousHash: Option<Digest<T>>, expectedSequence: nat)
    ensures linked <==> Linked(base, events)
    ensures linked ==>
              previousHash == HashBefore(base, events, |events|) && expectedSequence == base.sequence + |events| + 1
  {
    previousHash, expectedSequence := base.hash, base.sequence + 1;
    linked := true;
    var i := 0;
    while i < |events|
      invariant i <= |events|
      invariant forall k :: 0 <= k < i ==> Links(base, events, k)
      invariant previousHash == HashBefore(base, events, i) && expectedSequence == base.sequence + i + 1
    {
      var event := events[i];
      if event.sequence != expectedSequence
         || event.previousHash != previousHash
         || event.hash != Sha256(event.sequence, event.body, event.previousHash)
      {
        assert !Links(base, events, i);
        linked := false;
        return;
      }
      previousHash := Some(event.hash);
      expectedSequence := expectedSequence + 1;
      i := i + 1;
    }
  }

  /** A trimmed chain as it is saved inside an index. */
  datatype Chain<T> = Chain(events: seq<Event<T>>, sequence: nat, headHash: Option<Digest<T>>,
                            anchor: Option<Anchor<T>>)

  function EmptyChain<T>(): Chain<T> {
    Chain([], 0, None, None)
  }

  ghost predicate ChainAccepted<T>(c: Chain<T>) {
    Accepted(Behind(c.anchor), c.events, c.sequence, c.headHash)
  }

  /** The chain one event later: the oldest events over the limit go, the last of them becomes the anchor. */
  function Appended<T>(c: Chain<T>, body: T, retained: nat): Chain<T> {
    var event := NewEvent(c.sequence + 1, body, c.headHash);
    var events := c.events + [event];
    if |events| > retained then
      var cut := |events| - retained;
      Chain(events[cut..], event.sequence, Some(event.hash),
            Some(Anchor(events[cut - 1].sequence, events[cut - 1].hash)))
    else
      Chain(events, event.sequence, Some(event.hash), c.anchor)
  }

  lemma AppendAccepted<T>(base: Base<T>, events: seq<Event<T>>, sequence: nat, head: Option<Digest<T>>, event: Event<T>)
    requires Accepted(base, events, sequence, head) && event == NewEvent(sequence + 1, event.body, head)
    ensures Accepted(base, events + [event], sequence + 1, Some(event.hash))
  {
    forall k | 0 <= k < |events + [event]| ensures Links(base, events + [event], k) {
      if k < |events| {
        assert Links(base, events, k);
      }
    }
  }

  lemma CutAccepted<T>(base: Base<T>, events: seq<Event<T>>, sequence: nat, head: Option<Digest<T>>, cut: nat)
    requires Accepted(base, events, sequence, head) && 0 < cut <= |events|
    ensures Accepted(Base(events[cut - 1].sequence, Some(events[cut - 1].hash)), events[cut..], sequence, head)
  {
    var base' := Base(events[cut - 1].sequence, Some(events[cut - 1].hash));
    assert Links(base, events, cut - 1);
    forall k | 0 <= k < |events[cut..]| ensures Links(base', events[cut..], k) {
      assert Links(base, events, cut + k);
    }
  }

  /** Appending keeps an accepted chain accepted, whatever the limit. */
  lemma AppendedAccepted<T>(c: Chain<T>, body: T, retained: nat)
    requires ChainAccepted(c)
    ensures ChainAccepted(Appended(c, body, retained))
  {
    var event := NewEvent(c.sequence + 1, body, c.headHash);
    var events := c.events + [event];
    AppendAccepted(Behind(c.anchor), c.events, c.sequence, c.headHash, event);
    if |events| > retained {
      CutAccepted(Behind(c.anchor), events, c.sequence + 1, Some(event.hash), |events| - retained);
    }
  }

  /** `verifyChain` on a saved chain. */
  method CheckChain<T(==)>(c: Chain<T>) returns (valid: bool)
    ensures valid <==> ChainAccepted(c)
  {
    var linked, previousHash, expectedSequence := CheckLinks(Behind(c.anchor), c.events);
    valid := linked && c.sequence == expectedSequence - 1 && c.headHash == previousHash;
  }

  /** The event log inside an evidence index, appended to in place. */
  class EventLog<T(==)> {
    const retained: nat
    var events: seq<Event<T>>
    var sequence: nat
    var headHash: Option<Digest<T>>
    var anchor: Option<Anchor<T>>
    /** Everything ever appended. */
    ghost var full: seq<Event<T>>

    function Value(): Chain<T>
      reads this
    {
      Chain(events, sequence, headHash, anchor)
    }

    ghost function Dropped(): nat
      reads this
    {
      if |full| > retained then |full| - retained else 0
    }

    /** The log holds exactly the last `retained` events, behind the event just before them. */
    ghost predicate Valid()
      reads this
    {
      && retained > 0
      && IsFull(full, headHash)
      && sequence == |full|
      && events == full[Dropped()..]
      && Behind(anchor) == BaseAt(full, Dropped())
    }

    constructor (retained: nat)
      requires retained > 0
      ensures Valid() && full == [] && this.retained == retained
    {
      this.retained := retained;
      events, sequence, headHash, anchor, full := [], 0, None, None, [];
    }

    method AppendEvent(body: T)
      requires Valid()
      modifies this
      ensures Valid() && |full| == |old(full)| + 1 && old(full) <= full && full[|full| - 1].body == body
      ensures Value() == Appended(old(Value()), body, retained)
    {
      ghost var dropped := Dropped();
      var event := NewEvent(sequence + 1, body, headHash);
      FullAfterAppend(full, headHash, event);
      events := events + [event];
      sequence := event.sequence;
      headHash := Some(event.hash);
      full := full + [event];
      if |events| > retained {
        var cut := |events| - retained;
        var tail := events[cut - 1];
        KeptAfterCut(full, dropped, events, cut);
        events := events[cut..];
        anchor := Some(Anchor(tail.sequence, tail.hash));
      }
    }

    method VerifyChain() returns (valid: bool)
      ensures valid <==> Accepted(Behind(anchor), events, sequence, headHash)
    {
      valid := CheckChain(Value());
    }
  }

  /** After any number of appends the check passes. */
  lemma LogAccepted<T>(log: EventLog<T>)
    requires log.Valid()
    ensures Accepted(Behind(log.anchor), log.events, log.sequence, log.headHash)
    ensures |log.events| == if |log.full| > log.retained then log.retained else |log.full|
  {
    SuffixAccepted(log.full, log.headHash, log.Dropped());
  }
}
