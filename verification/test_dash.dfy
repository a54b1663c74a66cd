/** The checks of the DASH integration tests (IntegrationTests/test_dash.py):
    the actions a queue of orders is expected to produce, and the matching
    of the detected actions against them within time tolerances. Sending
    the orders, recording and analysing the video are not part of this
    model. */
module TestDash {
  import opened Common
  import opened TestUtils

  // ---- orders_to_actions ----

  /** The dictionary of an order: its `order` entry and its `destination`
      entry, each None when absent. */
  datatype Order = Order(name: Option<string>, destination: Option<real>)

  /** An element of a test queue: the order and the seconds to wait after it. */
  datatype QueueEntry = QueueEntry(order: Order, delay: int)

  /** An order the conversion accepts: it is named, and a seek names its
      destination. */
  predicate WellFormedOrder(o: Order) {
    o.name.Some? && (o.name.value == "seek" ==> o.destination.Some?)
  }

  /** The action expected of one order issued at `offset`; a missing entry
      raises KeyError. */
  function ExpectedAction(o: Order, offset: int): (r: Result<Action, PyError>)
    ensures r.Success? <==> WellFormedOrder(o)
    ensures r.Success? ==> r.value.name == o.name.value && r.value.time == offset && r.value.newResolution.None?
    ensures r.Success? ==> r.value.seekDestination == (if o.name.value == "seek" then o.destination else None)
    ensures r.Failure? ==> r.error.KeyError?
  {
    match o.name
    case None => Failure(KeyError("order"))
    case Some(name) =>
      if name == "seek" then
        match o.destination
        case None => Failure(KeyError("destination"))
        case Some(d) => Success(Action(name, offset, Some(d), None))
      else Success(Simple(name, offset))
  }

  /** The total delay of the orders of `queue`. */
  function Delays(queue: seq<QueueEntry>): int
    decreases |queue|
  {
    if |queue| == 0 then 0 else Delays(queue[..|queue| - 1]) + queue[|queue| - 1].delay
  }

  /** What `orders_to_actions` computes: each order's action at the total
      delay of the orders before it, stopping at the first KeyError. */
  function Expected(queue: seq<QueueEntry>): (r: Result<seq<Action>, PyError>)
    decreases |queue|
  {
    if |queue| == 0 then Success([])
    else
      var n := |queue|;
      match Expected(queue[..n - 1])
      case Failure(e) => Failure(e)
      case Success(actions) =>
        match ExpectedAction(queue[n - 1].order, Delays(queue[..n - 1]))
        case Failure(e) => Failure(e)
        case Success(a) => Success(actions + [a])
  }

  /** One action per order, in order: the same name, at the sum of the
      earlier orders' delays, a seek carrying its destination; the
      conversion fails, with a KeyError, exactly when some order lacks an
      entry. */
  lemma {:induction false} ExpectedShape(queue: seq<QueueEntry>)
    ensures Expected(queue).Success? <==> forall i :: 0 <= i < |queue| ==> WellFormedOrder(queue[i].order)
    ensures Expected(queue).Failure? ==> Expected(queue).error.KeyError?
    ensures Expected(queue).Success? ==>
      var actions := Expected(queue).value;
      && |actions| == |queue|
      && forall i :: 0 <= i < |queue| ==>
        && actions[i].name == queue[i].order.name.value
        && actions[i].time == Delays(queue[..i])
        && actions[i].seekDestination == (if actions[i].name == "seek" then queue[i].order.destination else None)
        && actions[i].newResolution.None?
    decreases |queue|
  {
    if |queue| > 0 {
      var n := |queue|;
      var prefix := queue[..n - 1];
      ExpectedShape(prefix);
      forall i | 0 <= i < n - 1
        ensures prefix[i] == queue[i] && prefix[..i] == queue[..i]
      {
      }
      if Expected(prefix).Success? && WellFormedOrder(queue[n - 1].order) {
        var actions := Expected(queue).value;
        assert actions[..n - 1] == Expected(prefix).value;
        forall i | 0 <= i < n - 1
          ensures actions[i] == Expected(prefix).value[i]
        {
          assert actions[i] == actions[..n - 1][i];
        }
      }
    }
  }

  /** Once a prefix of the queue fails, the whole queue fails the same way. */
  lemma {:induction false} ExpectedFailureStays(queue: seq<QueueEntry>, i: nat)
    requires i <= |queue|
    requires Expected(queue[..i]).Failure?
    ensures Expected(queue) == Expected(queue[..i])
    decreases |queue| - i
  {
    if i < |queue| {
      assert queue[..i + 1][..i] == queue[..i];
      ExpectedFailureStays(queue, i + 1);
    } else {
      assert queue[..i] == queue;
    }
  }

  /** `orders_to_actions`. */
  method OrdersToActions(queue: seq<QueueEntry>) returns (r: Result<seq<Action>, PyError>)
    ensures r == Expected(queue)
  {
    var actions: seq<Action> := [];
    var offset := 0;
    var i := 0;
    while i < |queue|
      invariant 0 <= i <= |queue|
      invariant Expected(queue[..i]) == Success(actions)
      invariant offset == Delays(queue[..i])
    {
      var order := queue[i].order;
      assert queue[..i + 1][..i] == queue[..i];
      if order.name.None? {
        ExpectedFailureStays(queue, i + 1);
        return Failure(KeyError("order"));
      }
      var action := order.name.value;
      if action == "seek" {
        if order.destination.None? {
          ExpectedFailureStays(queue, i + 1);
          return Failure(KeyError("destination"));
        }
        actions := actions + [Action(action, offset, Some(order.destination.value), None)];
      } else {
        actions := actions + [Simple(action, offset)];
      }
      offset := offset + queue[i].delay;
      i := i + 1;
    }
    assert queue[..i] == queue;
    return Success(actions);
  }

  // ---- compare_action and compare_actions ----

  /** How a time difference is measured against the running offset (the
      actual minus the expected time of the last match): as written, the
      offset is taken from the distance between the two times, which
      doubles the mismatch of actions that come early; the signed
      difference treats early and late alike. */
  datatype Measure = DistanceMinusOffset | DifferenceMinusOffset

  function Gap(actualTime: int, expectedTime: int, offset: int, measure: Measure): nat {
    match measure
    case DistanceMinusOffset => Abs(Abs(actualTime - expectedTime) - offset)
    case DifferenceMinusOffset => Abs((actualTime - expectedTime) - offset)
  }

  function RealAbs(x: real): real {
    if x < 0.0 then -x else x
  }

  /** When an actual action matches an expected one: the same name, a time
      gap within the tolerance, for a seek both destinations present and
      within the seek tolerance, for a changeVideo the same resolution. */
  predicate Matches(actual: Action, expected: Action, offset: int, tolerance: int, seekTolerance: real, measure: Measure) {
    && actual.name == expected.name
    && Gap(actual.time, expected.time, offset, measure) <= tolerance
    && (actual.name == "seek" ==>
          && actual.seekDestination.Some? && expected.seekDestination.Some?
          && RealAbs(actual.seekDestination.value - expected.seekDestination.value) <= seekTolerance)
    && (actual.name == "changeVideo" ==> actual.newResolution == expected.newResolution)
  }

  /** `compare_action`: True, or an exception saying what differs; a seek
      without a destination raises TypeError. It never returns False. */
  function CompareAction(actual: Action, expected: Action, offset: int, tolerance: int, seekTolerance: real, measure: Measure)
    : (r: Result<bool, PyError>)
    ensures r != Success(false)
    ensures r == Success(true) <==> Matches(actual, expected, offset, tolerance, seekTolerance, measure)
  {
    if actual.name != expected.name then Failure(ValueError(NameMismatch(actual, expected)))
    else
      var mismatch := Gap(actual.time, expected.time, offset, measure);
      if mismatch > tolerance then Failure(ValueError(TimeMismatch(actual, expected, tolerance, mismatch)))
      else if actual.name == "seek" then
        if actual.seekDestination.None? || expected.seekDestination.None? then Failure(TypeError)
        else if RealAbs(actual.seekDestination.value - expected.seekDestination.value) <= seekTolerance then Success(true)
        else Failure(ValueError(SeekMismatch(actual.seekDestination.value, expected.seekDestination.value)))
      else if actual.name == "changeVideo" then
        if actual.newResolution == expected.newResolution then Success(true)
        else Failure(ValueError(ResolutionMismatch(actual.newResolution, expected.newResolution)))
      else Success(true)
  }

  /** The first tolerance, before any offset is known. */
  const FirstTolerance: int := 15

  /** The loop of `compare_actions` from pair `i` on, with the current offset. */
  function CompareFrom(actions: seq<Action>, expected: seq<Action>, i: nat, offset: int,
                       tolerance: int, seekTolerance: real, measure: Measure): Result<bool, PyError>
    requires |actions| == |expected| && i <= |actions|
    decreases |actions| - i
  {
    if i == |actions| then Success(true)
    else
      match CompareAction(actions[i], expected[i], offset, tolerance, seekTolerance, measure)
      case Failure(e) => Failure(e)
      case Success(ok) =>
        if ok then CompareFrom(actions, expected, i + 1, actions[i].time - expected[i].time, tolerance, seekTolerance, measure)
        else Success(false)
  }

  /** What `compare_actions` computes, with the gap measured by `measure`. */
  function Compare(actions: seq<Action>, expected: seq<Action>, tolerance: int, seekTolerance: real, measure: Measure)
    : Result<bool, PyError>
  {
    if |actions| == 0 && |expected| == 0 then Success(true)
    else if |actions| != |expected| then Failure(ValueError(LengthMismatch(|actions|, |expected|)))
    else
      match CompareAction(actions[0], expected[0], 0, FirstTolerance, seekTolerance, measure)
      case Failure(e) => Failure(e)
      case Success(ok) =>
        CompareFrom(actions, expected, 1, if ok then actions[0].time - expected[0].time else 0,
                    tolerance, seekTolerance, measure)
  }

  /** Every pair from `i` on matches, each against the offset the previous
      pair left. */
  predicate AllMatchFrom(actions: seq<Action>, expected: seq<Action>, i: nat, offset: int,
                         tolerance: int, seekTolerance: real, measure: Measure)
    requires |actions| == |expected| && 1 <= i <= |actions|
  {
    && (i < |actions| ==> Matches(actions[i], expected[i], offset, tolerance, seekTolerance, measure))
    && forall j :: i < j < |actions| ==>
         Matches(actions[j], expected[j], actions[j - 1].time - expected[j - 1].time, tolerance, seekTolerance, measure)
  }

  lemma {:induction false} CompareFromMeaning(actions: seq<Action>, expected: seq<Action>, i: nat, offset: int,
                                              tolerance: int, seekTolerance: real, measure: Measure)
    requires |actions| == |expected| && 1 <= i <= |actions|
    ensures CompareFrom(actions, expected, i, offset, tolerance, seekTolerance, measure) != Success(false)
    ensures CompareFrom(actions, expected, i, offset, tolerance, seekTolerance, measure) == Success(true)
      <==> AllMatchFrom(actions, expected, i, offset, tolerance, seekTolerance, measure)
    decreases |actions| - i
  {
    if i < |actions| {
      var next := actions[i].time - expected[i].time;
      CompareFromMeaning(actions, expected, i + 1, next, tolerance, seekTolerance, measure);
    }
  }

  /** `compare_actions` returns True or raises, never False. It returns True
      exactly when the lists have the same length and, unless both are
      empty, the first pair matches within 15 seconds of each other and
      every later pair matches within `tolerance` of the offset the pair
      before it left; two empty lists compare True, lists of different
      lengths raise ValueError. */
  lemma CompareMeaning(actions: seq<Action>, expected: seq<Action>, tolerance: int, seekTolerance: real, measure: Measure)
    ensures Compare(actions, expected, tolerance, seekTolerance, measure) != Success(false)
    ensures |actions| == 0 && |expected| == 0 ==> Compare(actions, expected, tolerance, seekTolerance, measure) == Success(true)
    ensures |actions| != |expected| ==>
      Compare(actions, expected, tolerance, seekTolerance, measure) == Failure(ValueError(LengthMismatch(|actions|, |expected|)))
    ensures Compare(actions, expected, tolerance, seekTolerance, measure) == Success(true) <==>
      && |actions| == |expected|
      && (|actions| > 0 ==>
            && Matches(actions[0], expected[0], 0, FirstTolerance, seekTolerance, measure)
            && AllMatchFrom(actions, expected, 1, actions[0].time - expected[0].time, tolerance, seekTolerance, measure))
  {
    if |actions| == |expected| && |actions| > 0 {
      CompareFromMeaning(actions, expected, 1, actions[0].time - expected[0].time, tolerance, seekTolerance, measure);
      CompareFromMeaning(actions, expected, 1, 0, tolerance, seekTolerance, measure);
    }
  }

  /** `compare_actions`, with the gap measured from the signed difference. */
  method CompareActions(actions: seq<Action>, expected: seq<Action>, tolerance: int, seekTolerance: real)
    returns (r: Result<bool, PyError>)
    ensures r == Compare(actions, expected, tolerance, seekTolerance, DifferenceMinusOffset)
  {
    var measure := DifferenceMinusOffset;
    if |actions| == 0 && |expected| == 0 {
      return Success(true);
    }
    if |actions| != |expected| {
      return Failure(ValueError(LengthMismatch(|actions|, |expected|)));
    }
    var offset := 0;
    var first := CompareAction(actions[0], expected[0], offset, FirstTolerance, seekTolerance, measure);
    if first.Failure? {
      return Failure(first.error);
    }
    if first.value {
      offset := actions[0].time - expected[0].time;
    }
    var i := 1;
    while i < |actions|
      invariant 1 <= i <= |actions|
      invariant CompareFrom(actions, expected, i, offset, tolerance, seekTolerance, measure)
        == Compare(actions, expected, tolerance, seekTolerance, measure)
    {
      var matched := CompareAction(actions[i], expected[i], offset, tolerance, seekTolerance, measure);
      if matched.Failure? {
        return Failure(matched.error);
      }
      if !matched.value {
        return Success(false);
      }
      offset := actions[i].time - expected[i].time;
      i := i + 1;
    }
    return Success(true);
  }

  // ---- the offset rule ----

  /** The expected actions, each `shift` seconds later (earlier when
      negative). */
  function Shifted(expected: seq<Action>, shift: int): (r: seq<Action>)
    ensures |r| == |expected|
    ensures forall i :: 0 <= i < |r| ==> r[i] == expected[i].(time := expected[i].time + shift)
  {
    seq(|expected|, i requires 0 <= i < |expected| => expected[i].(time := expected[i].time + shift))
  }

  /** Every expected seek carries a destination. */
  predicate SeeksHaveDestinations(expected: seq<Action>) {
    forall i :: 0 <= i < |expected| && expected[i].name == "seek" ==> expected[i].seekDestination.Some?
  }

  /** With the signed difference, a detection that is the expected actions
      shifted by up to 15 seconds, early or late, always matches. */
  lemma ShiftedActionsMatch(expected: seq<Action>, shift: int, tolerance: int, seekTolerance: real)
    requires Abs(shift) <= FirstTolerance && 0 <= tolerance && 0.0 <= seekTolerance
    requires SeeksHaveDestinations(expected)
    ensures Compare(Shifted(expected, shift), expected, tolerance, seekTolerance, DifferenceMinusOffset) == Success(true)
  {
    var actions := Shifted(expected, shift);
    CompareMeaning(actions, expected, tolerance, seekTolerance, DifferenceMinusOffset);
    if |actions| > 0 {
      assert Matches(actions[0], expected[0], 0, FirstTolerance, seekTolerance, DifferenceMinusOffset);
      forall j | 1 <= j < |actions|
        ensures Matches(actions[j], expected[j], actions[j - 1].time - expected[j - 1].time, tolerance, seekTolerance, DifferenceMinusOffset)
      {
        assert actions[j - 1].time - expected[j - 1].time == shift;
      }
    }
  }

  /** As written, a late detection matches like that too... */
  lemma LateShiftAccepted(expected: seq<Action>, shift: int, tolerance: int, seekTolerance: real)
    requires 0 <= shift <= FirstTolerance && 0 <= tolerance && 0.0 <= seekTolerance
    requires SeeksHaveDestinations(expected)
    ensures Compare(Shifted(expected, shift), expected, tolerance, seekTolerance, DistanceMinusOffset) == Success(true)
  {
    var actions := Shifted(expected, shift);
    CompareMeaning(actions, expected, tolerance, seekTolerance, DistanceMinusOffset);
    if |actions| > 0 {
      assert Matches(actions[0], expected[0], 0, FirstTolerance, seekTolerance, DistanceMinusOffset);
      forall j | 1 <= j < |actions|
        ensures Matches(actions[j], expected[j], actions[j - 1].time - expected[j - 1].time, tolerance, seekTolerance, DistanceMinusOffset)
      {
        assert actions[j - 1].time - expected[j - 1].time == shift;
      }
    }
  }

  /** ...but one three seconds early fails at its second action, whose gap
      counts the shift twice, while the signed difference accepts it. */
  lemma EarlyShiftRejected()
    ensures Compare([Simple("play", 0), Simple("pause", 7)], [Simple("play", 3), Simple("pause", 10)], 5, 5.0, DistanceMinusOffset)
      == Failure(ValueError(TimeMismatch(Simple("pause", 7), Simple("pause", 10), 5, 6)))
    ensures Compare([Simple("play", 0), Simple("pause", 7)], [Simple("play", 3), Simple("pause", 10)], 5, 5.0, DifferenceMinusOffset)
      == Success(true)
  {
    var actions := [Simple("play", 0), Simple("pause", 7)];
    var expected := [Simple("play", 3), Simple("pause", 10)];
    assert CompareAction(actions[0], expected[0], 0, FirstTolerance, 5.0, DistanceMinusOffset) == Success(true);
    assert CompareAction(actions[1], expected[1], -3, 5, 5.0, DistanceMinusOffset)
      == Failure(ValueError(TimeMismatch(Simple("pause", 7), Simple("pause", 10), 5, 6)));
    assert CompareAction(actions[0], expected[0], 0, FirstTolerance, 5.0, DifferenceMinusOffset) == Success(true);
    assert CompareAction(actions[1], expected[1], -3, 5, 5.0, DifferenceMinusOffset) == Success(true);
  }
}
