/** The two loops that read a file in pieces: import's copy and storage's exact-length hash. */
module Streaming {
  import opened Text
  import opened Artifacts

  const BUFFER_BYTES: nat := 1024 * 1024

  /** What the environment does at one read: cancel before it, fail it, or offer some bytes. */
  datatype Event = Cancel | Fault | Deliver(offered: nat)

  datatype StreamError = Cancelled | IoFailed | SizeMismatch | ConcurrentModification

  /** How many bytes a read yields: none at the end of the file or into an empty buffer,
      otherwise any positive number that fits. */
  function Yield(offered: nat, room: nat, available: nat): (count: nat)
    ensures count <= room && count <= available
    ensures count == 0 <==> room == 0 || available == 0
  {
    var most := if room <= available then room else available;
    if most == 0 then 0 else if offered == 0 then 1 else if offered <= most then offered else most
  }

  ghost predicate Undisturbed(events: nat -> Event, steps: nat) {
    forall i :: 0 <= i < steps ==> events(i).Deliver?
  }

  /** How the copy of a source ends, whatever its reads deliver. */
  function CopyOutcome(source: Bytes, expected: nat, events: nat -> Event, step: nat, observed: nat)
    : (r: Result<(), StreamError>)
    requires observed <= |source|
    ensures r.Ok? ==> |source| == expected
    decreases |source| - observed
  {
    match events(step)
    case Cancel => Err(Cancelled)
    case Fault => Err(IoFailed)
    case Deliver(offered) =>
      var count := Yield(offered, BUFFER_BYTES, |source| - observed);
      if count == 0 then if observed == expected then Ok(()) else Err(SizeMismatch)
      else if observed + count > expected then Err(SizeMismatch)
      else CopyOutcome(source, expected, events, step + 1, observed + count)
  }

  /** How the copy goes on from its next read. */
  ghost predicate GoesOn(source: Bytes, expected: nat, events: nat -> Event, step: nat, observed: nat)
    requires observed <= |source|
  {
    CopyOutcome(source, expected, events, 0, 0) == CopyOutcome(source, expected, events, step, observed)
  }

  /** One read decides the outcome or leaves it to the next. */
  lemma OneRead(source: Bytes, expected: nat, events: nat -> Event, step: nat, observed: nat)
    requires observed <= |source| && GoesOn(source, expected, events, step, observed)
    ensures match events(step)
            case Cancel => CopyOutcome(source, expected, events, 0, 0) == Err(Cancelled)
            case Fault => CopyOutcome(source, expected, events, 0, 0) == Err(IoFailed)
            case Deliver(offered) =>
              var count := Yield(offered, BUFFER_BYTES, |source| - observed);
              if count == 0 then
                CopyOutcome(source, expected, events, 0, 0)
                == if observed == expected then Ok(()) else Err(SizeMismatch)
              else if observed + count > expected then
                CopyOutcome(source, expected, events, 0, 0) == Err(SizeMismatch)
              else
                GoesOn(source, expected, events, step + 1, observed + count)
  {
  }

  /** A copy that is not disturbed ends by length alone. */
  lemma {:induction false} UndisturbedCopy(source: Bytes, expected: nat, events: nat -> Event, step: nat, observed: nat)
    requires observed <= |source| && observed <= expected && forall n :: Undisturbed(events, n)
    ensures CopyOutcome(source, expected, events, step, observed)
         == if |source| == expected then Ok(()) else Err(SizeMismatch)
    decreases |source| - observed
  {
    assert Undisturbed(events, step + 1);
    var count := Yield(events(step).offered, BUFFER_BYTES, |source| - observed);
    if count != 0 && observed + count <= expected {
      UndisturbedCopy(source, expected, events, step + 1, observed + count);
    }
  }

  /** The read that decides a copy: every earlier one delivered, and the outcome is that read's
      cancellation or failure, or else a matter of length. */
  lemma {:induction false} DecidingRead(source: Bytes, expected: nat, events: nat -> Event, step: nat, observed: nat)
    returns (last: nat)
    requires observed <= |source| && observed <= expected && Undisturbed(events, step)
    ensures step <= last && Undisturbed(events, last)
    ensures CopyOutcome(source, expected, events, step, observed)
         == match events(last)
            case Cancel => Err(Cancelled)
            case Fault => Err(IoFailed)
            case Deliver(_) => if |source| == expected then Ok(()) else Err(SizeMismatch)
    decreases |source| - observed
  {
    last := step;
    if events(step).Deliver? {
      var count := Yield(events(step).offered, BUFFER_BYTES, |source| - observed);
      if count != 0 && observed + count <= expected {
        last := DecidingRead(source, expected, events, step + 1, observed + count);
      }
    }
  }

  /** A source of the expected length is refused only for what happens while it is read. */
  lemma {:induction false} CopyEnds(source: Bytes, expected: nat, events: nat -> Event, step: nat, observed: nat)
    requires observed <= |source| && observed <= expected
    ensures var r := CopyOutcome(source, expected, events, step, observed);
            && (r == Ok(()) || r == Err(Cancelled) || r == Err(IoFailed) || r == Err(SizeMismatch))
            && (|source| == expected ==> r != Err(SizeMismatch))
    decreases |source| - observed
  {
    if events(step).Deliver? {
      var count := Yield(events(step).offered, BUFFER_BYTES, |source| - observed);
      if count != 0 && observed + count <= expected {
        CopyEnds(source, expected, events, step + 1, observed + count);
      }
    }
  }

  /** Copies the source to the destination and hashes it. The destination never grows past the
      expected size, even on failure. */
  method CopyAndHash(source: Bytes, expected: nat, events: nat -> Event, hash: Bytes -> Digest)
    returns (r: Result<Digest, StreamError>, destination: Bytes, steps: nat)
    ensures destination <= source && |destination| <= expected
    ensures r.Ok? ==> |source| == expected && destination == source && r.value == hash(source)
    ensures match CopyOutcome(source, expected, events, 0, 0)
            case Ok(_) => r == Ok(hash(source))
            case Err(error) => r == Err(error)
    ensures Undisturbed(events, steps) ==> if |source| == expected then r.Ok? else r == Err(SizeMismatch)
    ensures steps > 0 && Undisturbed(events, steps - 1)
    ensures match events(steps - 1)
            case Cancel => r == Err(Cancelled)
            case Fault => r == Err(IoFailed)
            case Deliver(_) => if |source| == expected then r == Ok(hash(source)) else r == Err(SizeMismatch)
  {
    destination, steps := [], 0;
    var hashed: Bytes := [];
    var observed := 0;
    while true
      invariant observed <= expected && observed <= |source|
      invariant destination == hashed == source[..observed]
      invariant Undisturbed(events, steps)
      invariant GoesOn(source, expected, events, steps, observed)
      decreases |source| - observed
    {
      var event := events(steps);
      steps := steps + 1;
      if event.Cancel? {
        return Err(Cancelled), destination, steps;
      }
      if event.Fault? {
        return Err(IoFailed), destination, steps;
      }
      var count := Yield(event.offered, BUFFER_BYTES, |source| - observed);
      if count == 0 {
        break;
      }
      var piece := source[observed..observed + count];
      if observed + count > expected {
        return Err(SizeMismatch), destination, steps;
      }
      assert source[..observed] + piece == source[..observed + count];
      observed := observed + count;
      destination := destination + piece;
      hashed := hashed + piece;
    }
    assert source[..observed] == source;
    if observed != expected {
      return Err(SizeMismatch), destination, steps;
    }
    return Ok(hash(hashed)), destination, steps;
  }

  /** Hashes a file that must have exactly the expected length: too short a file and a file with a
      trailing byte are both reported as changed. */
  method HashExactBytes(file: Bytes, expected: nat, events: nat -> Event, hash: Bytes -> Digest)
    returns (r: Result<Digest, StreamError>, steps: nat)
    ensures r.Ok? ==> |file| == expected && r.value == hash(file)
    ensures Undisturbed(events, steps) ==> if |file| == expected then r.Ok? else r == Err(ConcurrentModification)
    ensures steps > 0 && Undisturbed(events, steps - 1)
    ensures r == Err(IoFailed) <==> events(steps - 1).Fault?
    ensures r == Err(Cancelled) ==> events(steps - 1).Cancel?
    ensures || r.Ok? || r == Err(IoFailed) || r == Err(Cancelled)
            || (r == Err(ConcurrentModification) && |file| != expected)
  {
    steps := 0;
    var hashed: Bytes := [];
    var observed := 0;
    while observed < expected
      invariant observed <= expected && observed <= |file|
      invariant hashed == file[..observed]
      invariant Undisturbed(events, steps)
    {
      var event := events(steps);
      steps := steps + 1;
      if event.Cancel? {
        return Err(Cancelled), steps;
      }
      if event.Fault? {
        return Err(IoFailed), steps;
      }
      var remaining := expected - observed;
      var room := if remaining <= BUFFER_BYTES then remaining else BUFFER_BYTES;
      var count := Yield(event.offered, room, |file| - observed);
      if count == 0 {
        return Err(ConcurrentModification), steps;
      }
      assert file[..observed] + file[observed..observed + count] == file[..observed + count];
      hashed := hashed + file[observed..observed + count];
      observed := observed + count;
    }
    // The token is not polled before the read of one trailing byte.
    if events(steps).Fault? {
      return Err(IoFailed), steps + 1;
    }
    steps := steps + 1;
    if Yield(1, 1, |file| - observed) != 0 {
      return Err(ConcurrentModification), steps;
    }
    assert file[..observed] == file;
    return Ok(hash(hashed)), steps;
  }
}
