/**
  The two actors of the program around the shared queue: the producer
  (parent process) runs five iterations, each trying to add patient `i`;
  the consumer (child process) runs five iterations, each trying to take
  the front patient. Each iteration is one critical section under the mutex,
  so it is modelled as one atomic queue operation.

  `Produce` and `Consume` run one actor's loop alone on the in-place queue.
  `Run` replays any interleaving of the two actors' iterations on the value
  of the segment.
 */
module Coordinator {
  import opened Labels
  import opened SharedQueue

  /** Number of iterations of each actor's loop. */
  const Iterations: nat := 5

  function Min(a: int, b: int): int {
    if a <= b then a else b
  }

  // Sequence facts the solver does not find on its own inside the larger
  // proofs below (`Produce`, `Consume`, `ProducerThenConsumer`, `RunNeverFull`,
  // `Drain`, `RoundTrip`, `ConsumerFirstServesNobody`): without these hints
  // those proofs fail or run out of resource.

  /** Moving the front of the waiting list to the end of the served list keeps their concatenation. */
  lemma MoveFront<T>(served: seq<T>, waiting: seq<T>, all: seq<T>)
    requires |waiting| > 0 && served + waiting == all
    ensures (served + [waiting[0]]) + waiting[1..] == all
  {
    assert waiting == [waiting[0]] + waiting[1..];
  }

  lemma ConcatAssoc<T>(a: seq<T>, b: seq<T>, c: seq<T>)
    ensures (a + b) + c == a + (b + c)
  {
  }

  lemma PrependEmpty<T>(a: seq<T>)
    ensures [] + a == a
  {
  }

  lemma AppendEmpty<T>(a: seq<T>)
    ensures a + [] == a
  {
  }

  lemma TakeSnoc<T>(s: seq<T>, n: nat)
    requires n < |s|
    ensures s[..n + 1] == s[..n] + [s[n]]
  {
  }

  lemma TakeCons<T>(s: seq<T>, n: nat)
    requires 1 <= n <= |s|
    ensures s[..n] == [s[0]] + s[1..][..n - 1]
  {
    assert s[..n] == [s[0]] + s[1..n];
  }

  lemma SliceCons<T>(s: seq<T>, lo: nat, hi: nat)
    requires lo < hi <= |s|
    ensures s[lo..hi] == [s[lo]] + s[lo + 1..hi]
  {
  }

  /** The ids `lo, lo + 1, ..., hi - 1`. */
  function IdRange(lo: nat, hi: nat): (r: seq<int32>)
    requires lo <= hi <= 0x8000_0000
    ensures |r| == hi - lo
    ensures forall k :: 0 <= k < |r| ==> r[k] as int == lo + k
    decreases hi - lo
  {
    if lo == hi then [] else [lo as int32] + IdRange(lo + 1, hi)
  }

  /** The records the producer builds for the given ids, in the same order. */
  function Admitted(ids: seq<int32>): (ps: seq<Patient>)
    ensures |ps| == |ids|
    ensures forall k :: 0 <= k < |ids| ==> ps[k] == NewPatient(ids[k])
  {
    if ids == [] then [] else [NewPatient(ids[0])] + Admitted(ids[1..])
  }

  /** The patients the producer's loop offers, iteration `i` offering patient `i`. */
  function Arrivals(): (ps: seq<Patient>)
    ensures |ps| == Iterations
    ensures forall k :: 0 <= k < Iterations ==> ps[k] == NewPatient(k as int32)
  {
    Admitted(IdRange(0, Iterations))
  }

  /**
    The producer's loop run alone: iteration `i` adds patient `i` while there
    is room, so the first `added` ids go to the back of the queue, in order.
   */
  method Produce(q: PharmacyQueue) returns (added: nat)
    requires q.Valid()
    modifies q`count, q.patients
    ensures q.Valid()
    ensures added == Min(Iterations, MaxPatients - old(q.count))
    ensures q.Contents() == old(q.Contents()) + Arrivals()[..added]
  {
    ghost var initial := q.Contents();
    added := 0;
    for i := 0 to Iterations
      invariant q.Valid()
      invariant added == Min(i, MaxPatients - old(q.count))
      invariant q.count == old(q.count) + added
      invariant q.Contents() == initial + Arrivals()[..added]
    {
      var ok := q.Enqueue(i as int32);
      if ok {
        TakeSnoc(Arrivals(), added);
        ConcatAssoc(initial, Arrivals()[..added], [Arrivals()[added]]);
        added := added + 1;
      }
    }
  }

  /**
    The consumer's loop run alone: each iteration takes the front patient if
    there is one, so the patients served are the oldest ones, in order, and
    the rest stay queued.
   */
  method Consume(q: PharmacyQueue) returns (served: seq<Patient>)
    requires q.Valid()
    modifies q`count, q.patients
    ensures q.Valid()
    ensures |served| == Min(Iterations, old(q.count))
    ensures served + q.Contents() == old(q.Contents())
  {
    ghost var initial := q.Contents();
    served := [];
    for i := 0 to Iterations
      invariant q.Valid()
      invariant served + q.Contents() == initial
      invariant |served| <= i
      invariant |served| < i ==> q.count == 0
    {
      ghost var before := q.Contents();
      var front := q.Dequeue();
      if front.Some? {
        MoveFront(served, before, initial);
        served := served + [front.value];
      }
    }
  }

  /**
    The schedule in which the producer finishes before the consumer starts:
    all five patients are added and then served, in id order, and the queue
    ends empty.
   */
  method ProducerThenConsumer() returns (served: seq<Patient>, left: int)
    ensures served == Arrivals()
    ensures forall k :: 0 <= k < |served| ==> served[k].id as int == k
    ensures forall k :: 0 <= k < |served| ==> served[k].name == NamePrefix + FormatInt(k)
    ensures left == 0
  {
    var q := new PharmacyQueue();
    var added := Produce(q);
    assert Arrivals()[..added] == Arrivals();
    PrependEmpty(Arrivals());
    served := Consume(q);
    left := q.count;
    assert q.Contents() == [];
    AppendEmpty(served);
    forall k | 0 <= k < |served|
      ensures served[k].name == NamePrefix + FormatInt(k)
    {
      LabelNotTruncated(k as int32);
    }
  }

  // Interleavings of the two actors, on the value of the segment.

  datatype Actor = Producer | Consumer

  /**
    The state of a run: the segment, how many iterations the producer has
    done (its loop index), every patient the producer managed to add, and
    every patient the consumer served, each in the order it happened.
   */
  datatype World = World(mem: Memory, produced: nat, admitted: seq<Patient>, served: seq<Patient>)

  /**
    The segment right after `count` is set to 0, before either actor starts:
    the same initial state as `PharmacyQueue`'s constructor, as a value.
   */
  function Start(): World {
    World(Memory(seq(MaxPatients, _ => Patient(0, "")), 0), 0, [], [])
  }

  function Occurrences(sched: seq<Actor>, a: Actor): (n: nat)
    ensures n <= |sched|
  {
    if sched == [] then 0 else (if sched[0] == a then 1 else 0) + Occurrences(sched[1..], a)
  }

  /**
    One producer iteration, atomic under the mutex: iteration `produced`
    offers `offers[produced]` and adds it if there is room.
   */
  function ProducerStep(w: World, offers: seq<Patient>): World
    requires WellFormed(w.mem) && w.produced < |offers|
  {
    var p := offers[w.produced];
    var r := Admit(w.mem, p);
    World(r.0, w.produced + 1, if r.1 then w.admitted + [p] else w.admitted, w.served)
  }

  /** One consumer iteration, atomic under the mutex: serve the front patient, if any. */
  function ConsumerStep(w: World): World
    requires WellFormed(w.mem)
  {
    var r := Serve(w.mem);
    World(r.0, w.produced, w.admitted, if r.1.Some? then w.served + [r.1.value] else w.served)
  }

  /** The iterations of `sched`, in order; the producer has one offer per iteration. */
  function Run(w: World, sched: seq<Actor>, offers: seq<Patient>): (r: World)
    requires WellFormed(w.mem)
    requires w.produced + Occurrences(sched, Producer) <= |offers|
    ensures WellFormed(r.mem)
    ensures r.produced == w.produced + Occurrences(sched, Producer)
    decreases |sched|
  {
    if sched == [] then w
    else if sched[0] == Producer then Run(ProducerStep(w, offers), sched[1..], offers)
    else Run(ConsumerStep(w), sched[1..], offers)
  }

  /**
    Whatever the interleaving, every patient added is either served or still
    waiting, and the served ones come first: service is in arrival order.
   */
  lemma {:induction false} RunIsFifo(w: World, sched: seq<Actor>, offers: seq<Patient>)
    requires WellFormed(w.mem)
    requires w.produced + Occurrences(sched, Producer) <= |offers|
    requires w.served + Live(w.mem) == w.admitted
    ensures Run(w, sched, offers).served + Live(Run(w, sched, offers).mem) == Run(w, sched, offers).admitted
    ensures w.served <= Run(w, sched, offers).served
    decreases |sched|
  {
    if sched != [] {
      if sched[0] == Producer {
        ProducerKeepsOrder(w, offers);
        RunIsFifo(ProducerStep(w, offers), sched[1..], offers);
      } else {
        ConsumerKeepsOrder(w);
        RunIsFifo(ConsumerStep(w), sched[1..], offers);
      }
    }
  }

  lemma ProducerKeepsOrder(w: World, offers: seq<Patient>)
    requires WellFormed(w.mem) && w.produced < |offers|
    requires w.served + Live(w.mem) == w.admitted
    ensures ProducerStep(w, offers).served + Live(ProducerStep(w, offers).mem) == ProducerStep(w, offers).admitted
    ensures ProducerStep(w, offers).served == w.served
  {
  }

  lemma ConsumerKeepsOrder(w: World)
    requires WellFormed(w.mem)
    requires w.served + Live(w.mem) == w.admitted
    ensures ConsumerStep(w).served + Live(ConsumerStep(w).mem) == ConsumerStep(w).admitted
    ensures w.served <= ConsumerStep(w).served
  {
  }

  /**
    While the producer's remaining iterations fit in the free slots, none of
    them finds the queue full: each adds the patient it offers.
   */
  lemma {:induction false} RunNeverFull(w: World, sched: seq<Actor>, offers: seq<Patient>)
    requires WellFormed(w.mem)
    requires w.produced + Occurrences(sched, Producer) <= |offers|
    requires w.mem.count + Occurrences(sched, Producer) <= MaxPatients
    ensures Run(w, sched, offers).admitted
         == w.admitted + offers[w.produced..w.produced + Occurrences(sched, Producer)]
    decreases |sched|
  {
    if sched == [] {
      assert offers[w.produced..w.produced] == [];
      AppendEmpty(w.admitted);
    } else if sched[0] == Producer {
      var w', e := ProducerStep(w, offers), w.produced + Occurrences(sched, Producer);
      ProducerAdmits(w, offers);
      assert Occurrences(sched, Producer) == 1 + Occurrences(sched[1..], Producer);
      assert Run(w, sched, offers) == Run(w', sched[1..], offers);
      RunNeverFull(w', sched[1..], offers);
      SliceCons(offers, w.produced, e);
      ConcatAssoc(w.admitted, [offers[w.produced]], offers[w.produced + 1..e]);
    } else {
      ConsumerAdmitsNothing(w);
      RunNeverFull(ConsumerStep(w), sched[1..], offers);
    }
  }

  /** A producer iteration that finds room adds the patient it offers. */
  lemma ProducerAdmits(w: World, offers: seq<Patient>)
    requires WellFormed(w.mem) && w.produced < |offers| && w.mem.count < MaxPatients
    ensures ProducerStep(w, offers).admitted == w.admitted + [offers[w.produced]]
    ensures ProducerStep(w, offers).produced == w.produced + 1
    ensures ProducerStep(w, offers).mem.count == w.mem.count + 1
  {
  }

  /** A consumer iteration adds no patient and does not advance the producer. */
  lemma ConsumerAdmitsNothing(w: World)
    requires WellFormed(w.mem)
    ensures ConsumerStep(w).admitted == w.admitted
    ensures ConsumerStep(w).produced == w.produced
    ensures ConsumerStep(w).mem.count <= w.mem.count
  {
  }

  /**
    The program's run under any interleaving of the two loops: the producer
    never finds the queue full, and the patients served followed by those
    still waiting are exactly patients 0, 1, ..., in id order.
   */
  lemma PharmacyRun(sched: seq<Actor>)
    requires Occurrences(sched, Producer) <= Iterations
    ensures Run(Start(), sched, Arrivals()).admitted == Arrivals()[..Occurrences(sched, Producer)]
    ensures Run(Start(), sched, Arrivals()).served + Live(Run(Start(), sched, Arrivals()).mem)
         == Run(Start(), sched, Arrivals()).admitted
    ensures forall k :: 0 <= k < |Run(Start(), sched, Arrivals()).served| ==>
              Run(Start(), sched, Arrivals()).served[k] == NewPatient(k as int32)
  {
    var r := Run(Start(), sched, Arrivals());
    RunNeverFull(Start(), sched, Arrivals());
    RunIsFifo(Start(), sched, Arrivals());
    forall k | 0 <= k < |r.served|
      ensures r.served[k] == NewPatient(k as int32)
    {
      assert r.served[k] == r.admitted[k];
    }
  }

  /** `n` iterations of one actor in a row. */
  function Repeat(a: Actor, n: nat): (s: seq<Actor>)
    ensures |s| == n
    ensures forall k :: 0 <= k < n ==> s[k] == a
  {
    if n == 0 then [] else [a] + Repeat(a, n - 1)
  }

  /**
    The consumer does not wait for patients: an iteration that finds the
    queue empty is used up. If any number of consumer iterations come before
    the producer's five, no patient is served and all five are left waiting.
   */
  lemma {:induction false} ConsumerFirstServesNobody(n: nat, offers: seq<Patient>)
    requires |offers| == Iterations
    ensures Occurrences(Repeat(Consumer, n) + Repeat(Producer, Iterations), Producer) == Iterations
    ensures Run(Start(), Repeat(Consumer, n) + Repeat(Producer, Iterations), offers).served == []
    ensures Run(Start(), Repeat(Consumer, n) + Repeat(Producer, Iterations), offers).mem.count == Iterations
  {
    var ps := Repeat(Producer, Iterations);
    if n == 0 {
      PrependEmpty(ps);
      ProducersOnly(Start(), ps, offers);
    } else {
      ConsumerFirstServesNobody(n - 1, offers);
      var rest := Repeat(Consumer, n - 1) + ps;
      ConcatAssoc([Consumer], Repeat(Consumer, n - 1), ps);
      IdleConsumer(Start(), rest, offers);
    }
  }

  /** A consumer iteration on an empty queue changes nothing. */
  lemma IdleConsumer(w: World, sched: seq<Actor>, offers: seq<Patient>)
    requires WellFormed(w.mem) && w.mem.count == 0
    requires w.produced + Occurrences(sched, Producer) <= |offers|
    ensures Occurrences([Consumer] + sched, Producer) == Occurrences(sched, Producer)
    ensures Run(w, [Consumer] + sched, offers) == Run(w, sched, offers)
  {
    assert ([Consumer] + sched)[1..] == sched;
  }

  /** Producer iterations alone, with room for all of them, serve nobody and fill one slot each. */
  lemma {:induction false} ProducersOnly(w: World, sched: seq<Actor>, offers: seq<Patient>)
    requires WellFormed(w.mem)
    requires forall k :: 0 <= k < |sched| ==> sched[k] == Producer
    requires w.produced + |sched| <= |offers|
    requires w.mem.count + |sched| <= MaxPatients
    ensures Occurrences(sched, Producer) == |sched|
    ensures Run(w, sched, offers).served == w.served
    ensures Run(w, sched, offers).mem.count == w.mem.count + |sched|
    decreases |sched|
  {
    if sched != [] {
      ProducersOnly(ProducerStep(w, offers), sched[1..], offers);
    }
  }

  // Composing runs, and the enqueue-k-then-dequeue-k round trip.

  lemma {:induction false} OccurrencesAppend(s1: seq<Actor>, s2: seq<Actor>, a: Actor)
    ensures Occurrences(s1 + s2, a) == Occurrences(s1, a) + Occurrences(s2, a)
    decreases |s1|
  {
    if s1 == [] {
      assert s1 + s2 == s2;
    } else {
      assert (s1 + s2)[1..] == s1[1..] + s2;
      OccurrencesAppend(s1[1..], s2, a);
    }
  }

  /** Running two schedules one after the other is running their concatenation. */
  lemma {:induction false} RunAppend(w: World, s1: seq<Actor>, s2: seq<Actor>, offers: seq<Patient>)
    requires WellFormed(w.mem)
    requires w.produced + Occurrences(s1 + s2, Producer) <= |offers|
    ensures Occurrences(s1 + s2, Producer) == Occurrences(s1, Producer) + Occurrences(s2, Producer)
    ensures Run(w, s1 + s2, offers) == Run(Run(w, s1, offers), s2, offers)
    decreases |s1|
  {
    OccurrencesAppend(s1, s2, Producer);
    if s1 == [] {
      assert s1 + s2 == s2;
    } else {
      assert (s1 + s2)[0] == s1[0];
      assert (s1 + s2)[1..] == s1[1..] + s2;
      if s1[0] == Producer {
        RunAppend(ProducerStep(w, offers), s1[1..], s2, offers);
      } else {
        RunAppend(ConsumerStep(w), s1[1..], s2, offers);
      }
    }
  }

  /**
    Consumer iterations alone, no more than the patients waiting, serve the
    oldest ones, in order, and leave the others waiting.
   */
  lemma {:induction false} Drain(w: World, sched: seq<Actor>, offers: seq<Patient>)
    requires WellFormed(w.mem)
    requires forall k :: 0 <= k < |sched| ==> sched[k] == Consumer
    requires |sched| <= w.mem.count && w.produced <= |offers|
    ensures Occurrences(sched, Producer) == 0
    ensures Run(w, sched, offers).served == w.served + Live(w.mem)[..|sched|]
    ensures Run(w, sched, offers).mem.count == w.mem.count - |sched|
    decreases |sched|
  {
    if sched == [] {
      assert Live(w.mem)[..0] == [];
      AppendEmpty(w.served);
    } else {
      var w', n := ConsumerStep(w), |sched|;
      ConsumerServesFront(w);
      Drain(w', sched[1..], offers);
      TakeCons(Live(w.mem), n);
      ConcatAssoc(w.served, [Live(w.mem)[0]], Live(w'.mem)[..n - 1]);
    }
  }

  /** A consumer iteration on a non-empty queue serves the oldest patient. */
  lemma ConsumerServesFront(w: World)
    requires WellFormed(w.mem) && w.mem.count > 0
    ensures ConsumerStep(w).served == w.served + [Live(w.mem)[0]]
    ensures Live(ConsumerStep(w).mem) == Live(w.mem)[1..]
    ensures ConsumerStep(w).mem.count == w.mem.count - 1
  {
  }

  /**
    Enqueueing `k` patients, at most the capacity, and then dequeueing `k`
    serves exactly those `k`, in order, and leaves `count` back at 0.
   */
  lemma RoundTrip(k: nat, offers: seq<Patient>)
    requires k <= MaxPatients && k <= |offers|
    ensures Occurrences(Repeat(Producer, k) + Repeat(Consumer, k), Producer) == k
    ensures Run(Start(), Repeat(Producer, k) + Repeat(Consumer, k), offers).served == offers[..k]
    ensures Run(Start(), Repeat(Producer, k) + Repeat(Consumer, k), offers).mem.count == 0
  {
    var ps, cs := Repeat(Producer, k), Repeat(Consumer, k);
    ProducersOnly(Start(), ps, offers);
    var mid := Run(Start(), ps, offers);
    assert Live(Start().mem) == [];
    RunNeverFull(Start(), ps, offers);
    RunIsFifo(Start(), ps, offers);
    PrependEmpty(Live(mid.mem));
    PrependEmpty(offers[..k]);
    assert Live(mid.mem) == offers[..k];
    Drain(mid, cs, offers);
    assert Live(mid.mem)[..k] == Live(mid.mem);
    PrependEmpty(Live(mid.mem));
    OccurrencesAppend(ps, cs, Producer);
    RunAppend(Start(), ps, cs, offers);
  }

  // The consumer's empty iterations.

  /** Each consumer iteration serves at most one patient. */
  lemma {:induction false} ServedAtMostConsumerSteps(w: World, sched: seq<Actor>, offers: seq<Patient>)
    requires WellFormed(w.mem)
    requires w.produced + Occurrences(sched, Producer) <= |offers|
    ensures |Run(w, sched, offers).served| <= |w.served| + Occurrences(sched, Consumer)
    decreases |sched|
  {
    if sched != [] {
      if sched[0] == Producer {
        ServedAtMostConsumerSteps(ProducerStep(w, offers), sched[1..], offers);
      } else {
        ServedAtMostConsumerSteps(ConsumerStep(w), sched[1..], offers);
      }
    }
  }

  /**
    As written, a consumer iteration that finds the queue empty is used up.
    So when the consumer's first iteration comes before the producer's first,
    its five iterations can serve at most four of the five patients, and at
    least one patient is still waiting when both loops are done. This happens
    with the program's own sleeps: the schedule C P P C P P C P C C.
   */
  lemma ConsumerFirstLeavesPatient(sched: seq<Actor>, offers: seq<Patient>)
    requires |offers| == Iterations
    requires Occurrences(sched, Producer) == Iterations
    requires Occurrences(sched, Consumer) == Iterations - 1
    ensures Occurrences([Consumer] + sched, Producer) == Iterations
    ensures Run(Start(), [Consumer] + sched, offers).mem.count >= 1
  {
    IdleConsumer(Start(), sched, offers);
    assert Live(Start().mem) == [];
    RunNeverFull(Start(), sched, offers);
    RunIsFifo(Start(), sched, offers);
    ServedAtMostConsumerSteps(Start(), sched, offers);
  }

  /** The iterations after the consumer's first poll in `SleepScheduleLeavesPatient`. */
  function SleepScheduleRest(): seq<Actor> {
    [Producer, Producer, Consumer, Producer, Producer, Consumer, Producer, Consumer, Consumer]
  }

  lemma SleepScheduleRestCounts()
    ensures Occurrences(SleepScheduleRest(), Producer) == Iterations
    ensures Occurrences(SleepScheduleRest(), Consumer) == Iterations - 1
  {
  }

  /**
    The interleaving the sleeps give when the child locks the mutex first:
    the consumer polls at seconds 0, 2, 4, 6 and 8, the producer adds at
    seconds 0 to 4, and patient 4 is still waiting at the end.
   */
  lemma SleepScheduleLeavesPatient(offers: seq<Patient>)
    requires |offers| == Iterations
    ensures Occurrences([Consumer] + SleepScheduleRest(), Producer) == Iterations
    ensures Run(Start(), [Consumer] + SleepScheduleRest(), offers).mem.count >= 1
  {
    SleepScheduleRestCounts();
    ConsumerFirstLeavesPatient(SleepScheduleRest(), offers);
  }

  /**
    The consumer as evidently intended: it waits for a patient (the
    `sem_patient` count) before each iteration, so every consumer iteration
    finds the queue non-empty.
   */
  predicate ConsumerWaits(w: World, sched: seq<Actor>, offers: seq<Patient>)
    requires WellFormed(w.mem)
    requires w.produced + Occurrences(sched, Producer) <= |offers|
    decreases |sched|
  {
    if sched == [] then true
    else if sched[0] == Producer then ConsumerWaits(ProducerStep(w, offers), sched[1..], offers)
    else w.mem.count > 0 && ConsumerWaits(ConsumerStep(w), sched[1..], offers)
  }

  /** A consumer that waits serves one patient in every iteration. */
  lemma {:induction false} WaitingConsumerServesEachStep(w: World, sched: seq<Actor>, offers: seq<Patient>)
    requires WellFormed(w.mem)
    requires w.produced + Occurrences(sched, Producer) <= |offers|
    requires ConsumerWaits(w, sched, offers)
    ensures |Run(w, sched, offers).served| == |w.served| + Occurrences(sched, Consumer)
    decreases |sched|
  {
    if sched != [] {
      if sched[0] == Producer {
        WaitingConsumerServesEachStep(ProducerStep(w, offers), sched[1..], offers);
      } else {
        WaitingConsumerServesEachStep(ConsumerStep(w), sched[1..], offers);
      }
    }
  }

  /**
    With the waiting consumer, every interleaving of the two five-iteration
    loops serves all five patients in id order and leaves the queue empty.
   */
  lemma WaitingConsumerServesAll(sched: seq<Actor>)
    requires Occurrences(sched, Producer) == Iterations
    requires Occurrences(sched, Consumer) == Iterations
    requires ConsumerWaits(Start(), sched, Arrivals())
    ensures Run(Start(), sched, Arrivals()).served == Arrivals()
    ensures Run(Start(), sched, Arrivals()).mem.count == 0
  {
    var r := Run(Start(), sched, Arrivals());
    assert Live(Start().mem) == [];
    RunNeverFull(Start(), sched, Arrivals());
    assert Arrivals()[0..Iterations] == Arrivals();
    RunIsFifo(Start(), sched, Arrivals());
    WaitingConsumerServesEachStep(Start(), sched, Arrivals());
    assert r.served == r.served + Live(r.mem);
  }
}
