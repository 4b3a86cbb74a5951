/**
  The bounded FIFO queue of patients that the two processes share.

  `Memory` is the value of the shared segment (the array `patients` and the
  occupancy `count`); `Admit` and `Serve` are the producer's and the consumer's
  critical sections as functions of that value. `PharmacyQueue` is the segment
  itself, updated in place, and its methods are proved to perform exactly
  those transitions.
 */
module SharedQueue {
  import opened Labels

  /** Capacity of the queue. */
  const MaxPatients: nat := 10

  datatype Patient = Patient(id: int32, name: string)

  datatype Option<T> = None | Some(value: T)

  /** The record the producer builds in its iteration `i`. */
  function NewPatient(i: int32): Patient {
    Patient(i, Label(i))
  }

  /** A snapshot of the shared segment. */
  datatype Memory = Memory(patients: seq<Patient>, count: int)

  /** The segment's invariant: a full-size array and an occupancy within capacity. */
  predicate WellFormed(m: Memory) {
    |m.patients| == MaxPatients && 0 <= m.count <= MaxPatients
  }

  /** The patients waiting, oldest first: the first `count` slots. */
  function Live(m: Memory): (q: seq<Patient>)
    requires WellFormed(m)
    ensures |q| == m.count
  {
    m.patients[..m.count]
  }

  /** The array after the consumer's shift loop over the first `n` slots. */
  function ShiftFront(s: seq<Patient>, n: nat): seq<Patient>
    requires 1 <= n <= |s|
  {
    s[1..n] + s[n - 1..]
  }

  /**
    The producer's critical section for patient `p`: write it into slot
    `count` when there is room, otherwise leave the segment as it is. The
    flag says whether the patient was added.
   */
  function Admit(m: Memory, p: Patient): (r: (Memory, bool))
    requires WellFormed(m)
    ensures WellFormed(r.0)
    ensures r.1 <==> m.count < MaxPatients
    ensures r.1 ==> r.0.count == m.count + 1 && Live(r.0) == Live(m) + [p]
    ensures r.1 ==> r.0.patients[m.count + 1..] == m.patients[m.count + 1..]
    ensures !r.1 ==> r.0 == m
  {
    if m.count < MaxPatients then
      (Memory(m.patients[m.count := p], m.count + 1), true)
    else
      (m, false)
  }

  /**
    The consumer's critical section: take the patient at the front and move
    every other waiting patient one slot forward, or, on an empty queue,
    leave the segment as it is.
   */
  function Serve(m: Memory): (r: (Memory, Option<Patient>))
    requires WellFormed(m)
    ensures WellFormed(r.0)
    ensures m.count == 0 ==> r == (m, None)
    ensures m.count > 0 ==> r.1 == Some(Live(m)[0])
    ensures m.count > 0 ==> r.0.count == m.count - 1 && Live(r.0) == Live(m)[1..]
    ensures m.count > 0 ==> r.0.patients[m.count - 1..] == m.patients[m.count - 1..]
  {
    if m.count > 0 then
      (Memory(ShiftFront(m.patients, m.count), m.count - 1), Some(m.patients[0]))
    else
      (m, None)
  }

  /** The shared segment `PharmacySharedMemory`, updated in place. */
  class PharmacyQueue {
    var patients: array<Patient>
    var count: int

    ghost function Snapshot(): Memory
      reads this, patients
    {
      Memory(patients[..], count)
    }

    ghost predicate Valid()
      reads this, patients
    {
      WellFormed(Snapshot())
    }

    /** The waiting patients, oldest first. */
    ghost function Contents(): seq<Patient>
      reads this, patients
      requires Valid()
    {
      Live(Snapshot())
    }

    /** A freshly created, zero-filled segment whose `count` is set to 0. */
    constructor ()
      ensures Valid() && fresh(patients)
      ensures count == 0 && Contents() == []
    {
      patients := new Patient[MaxPatients](_ => Patient(0, ""));
      count := 0;
    }

    /** The producer's iteration `i`: add patient `i` unless the queue is full. */
    method Enqueue(i: int32) returns (added: bool)
      requires Valid()
      modifies this`count, patients
      ensures Valid()
      ensures (Snapshot(), added) == Admit(old(Snapshot()), NewPatient(i))
      ensures added <==> old(count) < MaxPatients
      ensures Contents() == if added then old(Contents()) + [NewPatient(i)] else old(Contents())
    {
      var c := count;
      if c < MaxPatients {
        patients[c] := NewPatient(i);
        count := count + 1;
        added := true;
      } else {
        added := false;
      }
    }

    /** The consumer's iteration: remove and return the front patient, if any. */
    method Dequeue() returns (front: Option<Patient>)
      requires Valid()
      modifies this`count, patients
      ensures Valid()
      ensures (Snapshot(), front) == Serve(old(Snapshot()))
      ensures front == if old(count) == 0 then None else Some(old(Contents())[0])
      ensures Contents() == if old(count) == 0 then old(Contents()) else old(Contents())[1..]
    {
      if count > 0 {
        front := Some(patients[0]);
        var j := 0;
        while j < count - 1
          invariant 0 <= j <= count - 1
          invariant count == old(count)
          invariant forall k :: 0 <= k < j ==> patients[k] == old(patients[k + 1])
          invariant forall k :: j <= k < patients.Length ==> patients[k] == old(patients[k])
        {
          patients[j] := patients[j + 1];
          j := j + 1;
        }
        assert patients[..] == ShiftFront(old(patients[..]), count);
        count := count - 1;
      } else {
        front := None;
      }
    }
  }
}
