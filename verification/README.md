# Pharmacy patient queue — a Dafny model

The program `patient.c` runs a small pharmacy. A parent process adds patients
to a queue and a child process administers a jab to each one. The two processes
share one memory segment, `PharmacySharedMemory`. It holds a fixed array of ten
`Patient {id, name}` records and an occupancy `count`. A semaphore used as a
mutex guards every access.

The queue is FIFO. The producer writes a new patient into slot `count` and
increments `count`. When the queue is full it leaves it alone. The consumer
takes slot 0, shifts every other waiting patient one slot forward in place, and
decrements `count`. When the queue is empty it leaves it alone. Each actor runs
five iterations. The producer's iteration `i` offers patient `i`, named
`"Patient i"` by `snprintf` into a 100-byte buffer.

The model has three modules:

- `Labels` (`labels.dfy`): the C `int` as `int32`, what `%d` prints, and how
  `snprintf` cuts its output to the buffer size. The lemmas prove that no
  `int` id yields a name long enough to be truncated, and that the `%d` text
  reads back to the id.
- `SharedQueue` (`shared_queue.dfy`): the segment as a value (`Memory`). It
  has two transition functions. `Admit` is the producer's critical section
  and `Serve` is the consumer's. Their contracts state the bounded-FIFO
  behaviour: the occupancy stays within `[0, 10]`, the full and empty cases
  leave the segment unchanged, and the waiting patients go from `s` to
  `s + [p]` or to `s[1..]`. The class `PharmacyQueue` is the segment updated
  in place. Its fields are an `array` of ten patients and `count`.
  `Enqueue` and `Dequeue` are proved to perform exactly `Admit` and `Serve`.
  `Dequeue` keeps the source's shifting `for` loop, with its invariant.
- `Coordinator` (`coordinator.dfy`): the two actors' loops. `Produce` and
  `Consume` run each loop alone on the in-place queue. `ProducerThenConsumer`
  runs the producer's five iterations and then the consumer's five. `Run`
  replays any interleaving of atomic producer and consumer iterations on the
  value of the segment. The lemmas about `Run` prove three things for every
  interleaving. Service is in arrival order. The producer never finds the
  queue full. The patients served, followed by those still waiting, are
  exactly patients 0, 1, … in id order. `RoundTrip` proves that `k` enqueues
  followed by `k` dequeues, for any `k` up to the capacity, return the same
  `k` patients in order and leave `count` at 0. The lemmas also show that the
  consumer's five iterations need not serve all five patients (see
  Findings).

## Model

| member | source | states |
|---|---|---|
| `Labels.Decimal` | patient.c:119 | the decimal text of a number is non-empty, is made only of digits, and has no leading zero |
| `Labels.DecimalRoundTrip` | patient.c:119 | reading the decimal text of `n` back gives `n` |
| `Labels.DecimalLength` | patient.c:119 | a number below 10^k is written with at most k digits |
| `Labels.FormatIntRoundTrip` | patient.c:119 | the `%d` text of any integer is a well-formed signed numeral and reads back to that integer |
| `Labels.FormatIntLength` | patient.c:18 | every C `int` id is printed in at most 11 characters |
| `Labels.Snprintf` | patient.c:119 | `snprintf` into a buffer of `size` bytes keeps a prefix of the text that is shorter than `size`; it keeps the whole text when the text fits, and exactly `size - 1` characters otherwise |
| `Labels.LabelNotTruncated` | patient.c:19 | for every `int` id the stored name is exactly `"Patient "` followed by the id's `%d` text, at most 19 characters, so `name[100]` never truncates it |
| `SharedQueue.Admit` | patient.c:115-128 | the patient is added exactly when `count < 10`; `count` then grows by one and the waiting patients become the old ones plus the new patient at the back; slots after the new one are untouched; on a full queue the segment is unchanged; the invariant `0 <= count <= 10` is kept |
| `SharedQueue.Serve` | patient.c:92-107 | on an empty queue nothing is returned and the segment is unchanged; otherwise the old front patient is returned, `count` drops by one, the waiting patients become the old ones without the first, and slots from the old last live slot on are untouched; the invariant is kept |
| `SharedQueue.PharmacyQueue.constructor` | patient.c:64 | a fresh ten-slot segment with `count == 0` and no waiting patient |
| `SharedQueue.PharmacyQueue.Enqueue` | patient.c:115-128 | the in-place write of patient `i` into slot `count` and the increment perform exactly `Admit`; it reports success exactly when `count < 10`, and the contents grow by patient `i` or stay the same |
| `SharedQueue.PharmacyQueue.Dequeue` | patient.c:92-107 | the read of slot 0, the in-place shift loop and the decrement perform exactly `Serve`; the result is the old front patient, or nothing on an empty queue, and the contents lose their first element or stay the same |
| `Coordinator.IdRange` | patient.c:113 | the producer's loop indices `lo .. hi - 1`, in order |
| `Coordinator.Arrivals` | patient.c:113-119 | the producer offers five patients, iteration `k` offering patient `k` with its formatted name |
| `Coordinator.Produce` | patient.c:113-130 | the producer's loop run alone adds `min(5, 10 - count)` patients, namely patients 0, 1, … in order, at the back of the queue |
| `Coordinator.Consume` | patient.c:90-108 | the consumer's loop run alone serves `min(5, count)` patients; these are the oldest ones in order, and the rest stay queued |
| `Coordinator.ProducerThenConsumer` | patient.c:88-131 | when the producer finishes before the consumer starts, the five patients are served as patients 0..4 in id order, named "Patient 0".."Patient 4", and the queue ends empty |
| `Coordinator.Run` | patient.c:88-131 | under every interleaving of the two loops' iterations the segment keeps `0 <= count <= 10`, and the producer's loop index advances once per producer iteration |
| `Coordinator.ProducerKeepsOrder` | patient.c:115-120 | a producer iteration keeps "served patients followed by waiting patients = patients added" and serves nobody |
| `Coordinator.ConsumerKeepsOrder` | patient.c:92-99 | a consumer iteration keeps "served patients followed by waiting patients = patients added" and only extends the served list |
| `Coordinator.RunIsFifo` | patient.c:92-120 | under every interleaving, the served patients followed by the waiting patients are exactly the patients added, and the served list only grows: service is first-in first-out |
| `Coordinator.RunNeverFull` | patient.c:113-120 | while the producer's remaining iterations fit in the free slots, every one of them adds the patient it offers, in order |
| `Coordinator.PharmacyRun` | patient.c:64-131 | starting from `count = 0`, under every interleaving with at most five producer iterations, the producer never finds the queue full, and the patients served followed by those waiting are patients 0, 1, … in id order |
| `Coordinator.IdleConsumer` | patient.c:103-106 | a consumer iteration on an empty queue changes nothing |
| `Coordinator.ProducersOnly` | patient.c:113-120 | producer iterations alone, with room for all of them, serve nobody and fill one slot each |
| `Coordinator.RunAppend` | patient.c:88-131 | running one schedule of iterations and then another is the same as running their concatenation, and the producer iterations of the two add up |
| `Coordinator.ProducerAdmits` | patient.c:115-120 | a producer iteration that finds room adds the patient it offers, advances its loop index and raises `count` by one |
| `Coordinator.ConsumerServesFront` | patient.c:92-99 | a consumer iteration on a non-empty queue serves the oldest waiting patient, removes it from the waiting list and lowers `count` by one |
| `Coordinator.Drain` | patient.c:92-99 | consumer iterations alone, no more than the patients waiting, serve the oldest ones in order and lower `count` by one each |
| `Coordinator.RoundTrip` | patient.c:92-120 | for every `k <= 10` and any offered patients, `k` producer iterations followed by `k` consumer iterations from the initial segment serve exactly the first `k` offered patients, in order, and leave `count == 0` |
| `Coordinator.ServedAtMostConsumerSteps` | patient.c:90-107 | under every interleaving, each consumer iteration serves at most one patient |
| `Coordinator.ConsumerFirstLeavesPatient` | patient.c:90-107 | as written: when the consumer's first iteration comes before the producer's first, the five consumer iterations leave at least one of the five patients waiting |
| `Coordinator.SleepScheduleLeavesPatient` | patient.c:102-128 | as written: the interleaving produced by the sleeps when the child locks first (C P P C P P C P C C) ends with at least one patient waiting |
| `Coordinator.WaitingConsumerServesEachStep` | patient.c:90-107 | with a consumer that waits for a patient before each iteration, every consumer iteration serves exactly one patient |
| `Coordinator.WaitingConsumerServesAll` | patient.c:88-131 | with a consumer that waits for a patient, every interleaving of the two five-iteration loops serves patients 0..4 in id order and ends with `count == 0` |
| `Coordinator.ConsumerFirstServesNobody` | patient.c:90-107 | when the consumer's iterations all come before the producer's five, the consumer serves nobody and five patients are left waiting, because an iteration that finds the queue empty is used up rather than retried |

## Left out

- The shared-memory and semaphore set-up and tear-down (`shmget`, `shmat`,
  `semget`, `semctl`, `shmctl`, the `cleanup` helper) and `fork`/`wait`. These
  are operating-system facilities. The model starts from a freshly created,
  zero-filled segment, so a segment left behind by an earlier run is not
  modelled.
- The mutex itself. Each critical section (patient.c:91-107 and 114-129) is one
  atomic step: `Admit` or `Serve`. The interleavings in `Run` interleave only
  these whole steps.
- The `sem_patient` counting semaphore. It is only ever incremented and no
  process waits on it, so it has no effect on the queue.
- `sleep`, every `printf` and `perror`, and the exit paths taken when a set-up
  call fails. The value printed by the consumer (`patients[0]`) is what
  `Dequeue` returns.
- Time. The sleeps are not modelled as durations; the model only says what
  each interleaving does. `SleepScheduleLeavesPatient` covers the
  interleaving the sleeps give when the child runs first.
- The `Patient` copy `patients[j] = patients[j + 1]` is a value assignment of
  the whole record, including the name buffer. Byte-level copying of `char
  name[100]` beyond the terminating NUL is not modelled.

## Findings

| source | as written | input that shows it | evidently intended | confidence | as-written member | corrected member |
|---|---|---|---|---|---|---|
| patient.c:90-107 | a consumer iteration that finds the queue empty prints a message, sleeps and still counts as one of its five iterations; `sem_patient` is signalled for each patient added but nobody waits on it | the child locks the mutex first; with the program's sleeps (1 s per producer iteration, 2 s per consumer iteration) the order is C P P C P P C P C C, and at least one patient (patient 4) is still waiting when both loops end | the consumer waits for a patient before each iteration, so its five iterations serve all five patients and the queue ends empty | medium, not executed | `Coordinator.SleepScheduleLeavesPatient` (with `Coordinator.ConsumerFirstLeavesPatient`) | `Coordinator.WaitingConsumerServesAll` |

The corrected consumer is the predicate `ConsumerWaits`: a consumer
iteration is only taken when a patient is waiting. The rest of the model keeps
the consumer as written, because that is what the program does.
`ProducerThenConsumer` and `RoundTrip` are the schedules in which the
as-written consumer does serve every patient.
