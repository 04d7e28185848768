/**
 * Runs of the scanner's callbacks. A run is a sequence of events delivered
 * one at a time on the main queue; the lemmas here relate what a whole run
 * accepts and publishes.
 */
module ScanTraces {
  import opened Wrappers
  import opened Scanner

  datatype Event =
    | Detection(checkedAt: int, stampedAt: int, objects: seq<MetadataObject>, captureAvailable: bool)
    | PhotoCompletion(outcome: PhotoOutcome)
    | AlertHideFired

  /** An accepted detection: both clock readings and the code it stored. */
  datatype Acceptance = Acceptance(checkedAt: int, stampedAt: int, code: string)

  function Apply(s: ScannerState, e: Event): (r: ScannerState)
  {
    match e
    case Detection(checkedAt, stampedAt, objects, available) =>
      Detect(s, checkedAt, stampedAt, objects, available).state
    case PhotoCompletion(outcome) => CompletePhoto(s, outcome).state
    case AlertHideFired => AlertHidden(s)
  }

  function Run(s: ScannerState, es: seq<Event>): (r: ScannerState)
    decreases |es|
  {
    if es == [] then s else Run(Apply(s, es[0]), es[1..])
  }

  function AcceptanceOf(s: ScannerState, e: Event): (r: seq<Acceptance>)
  {
    if e.Detection? && Accepts(s, e.checkedAt, e.objects) then
      [Acceptance(e.checkedAt, e.stampedAt, FirstStringValue(e.objects).value)]
    else []
  }

  /** The detections a run accepts, in order. */
  function Acceptances(s: ScannerState, es: seq<Event>): (r: seq<Acceptance>)
    decreases |es|
  {
    if es == [] then [] else AcceptanceOf(s, es[0]) + Acceptances(Apply(s, es[0]), es[1..])
  }

  function PublicationOf(s: ScannerState, e: Event): (r: seq<string>)
  {
    if e.PhotoCompletion? && Publishes(s, e.outcome) then [s.pendingCode.value] else []
  }

  /** The codes a run publishes (moves into `scannedCode`), in order. */
  function Publications(s: ScannerState, es: seq<Event>): (r: seq<string>)
    decreases |es|
  {
    if es == [] then [] else PublicationOf(s, es[0]) + Publications(Apply(s, es[0]), es[1..])
  }

  /** The clock does not run backwards between the two readings of one detection. */
  predicate ClockForward(es: seq<Event>)
  {
    forall k :: 0 <= k < |es| && es[k].Detection? ==> es[k].checkedAt <= es[k].stampedAt
  }

  /** The guard a detection read at `checkedAt` passed, given the previous stamp. */
  predicate GatePassed(previous: Option<int>, checkedAt: int)
  {
    previous.None? || checkedAt - previous.value >= CooldownMillis
  }

  function LastStamp(previous: Option<int>, acc: seq<Acceptance>): (r: Option<int>)
  {
    if acc == [] then previous else Some(acc[|acc| - 1].stampedAt)
  }

  /** Every acceptance passed the guard against the stamp accepted just before it. */
  predicate Gated(previous: Option<int>, acc: seq<Acceptance>)
  {
    && (acc != [] ==> GatePassed(previous, acc[0].checkedAt))
    && forall k :: 0 < k < |acc| ==> GatePassed(Some(acc[k - 1].stampedAt), acc[k].checkedAt)
  }

  lemma GatedAppend(previous: Option<int>, head: seq<Acceptance>, tail: seq<Acceptance>)
    requires |head| <= 1
    requires Gated(previous, head) && Gated(LastStamp(previous, head), tail)
    ensures Gated(previous, head + tail)
    ensures LastStamp(LastStamp(previous, head), tail) == LastStamp(previous, head + tail)
  {
  }

  /** One step keeps `lastScanTimestamp` equal to the last accepted stamp. */
  lemma StepGated(s: ScannerState, e: Event)
    ensures Gated(s.lastScanTimestamp, AcceptanceOf(s, e))
    ensures Apply(s, e).lastScanTimestamp == LastStamp(s.lastScanTimestamp, AcceptanceOf(s, e))
  {
  }

  /**
   * Every accepted detection read the clock at least 3000 ms after the stamp
   * of the acceptance before it, and `lastScanTimestamp` is always the stamp
   * of the last acceptance: it changes on acceptance only, and only to the
   * time read then.
   */
  lemma {:induction false} AcceptancesAreGated(s: ScannerState, es: seq<Event>)
    ensures Gated(s.lastScanTimestamp, Acceptances(s, es))
    ensures Run(s, es).lastScanTimestamp == LastStamp(s.lastScanTimestamp, Acceptances(s, es))
    decreases |es|
  {
    if es != [] {
      var next := Apply(s, es[0]);
      StepGated(s, es[0]);
      AcceptancesAreGated(next, es[1..]);
      GatedAppend(s.lastScanTimestamp, AcceptanceOf(s, es[0]), Acceptances(next, es[1..]));
    }
  }

  lemma {:induction false} AcceptancesClockForward(s: ScannerState, es: seq<Event>)
    requires ClockForward(es)
    ensures forall k :: 0 <= k < |Acceptances(s, es)| ==>
              Acceptances(s, es)[k].checkedAt <= Acceptances(s, es)[k].stampedAt
    decreases |es|
  {
    if es != [] {
      var next := Apply(s, es[0]);
      assert ClockForward(es[1..]) by {
        forall k | 0 <= k < |es[1..]| && es[1..][k].Detection?
          ensures es[1..][k].checkedAt <= es[1..][k].stampedAt
        {
          assert es[1..][k] == es[k + 1];
        }
      }
      AcceptancesClockForward(next, es[1..]);
      var head, tail := AcceptanceOf(s, es[0]), Acceptances(next, es[1..]);
      var all: seq<Acceptance> := head + tail;
      forall k | 0 <= k < |all|
        ensures all[k].checkedAt <= all[k].stampedAt
      {
        if k >= |head| {
          assert all[k] == tail[k - |head|];
        }
      }
    }
  }

  lemma {:induction false} StampGap(acc: seq<Acceptance>, i: int, j: int)
    requires forall k :: 0 < k < |acc| ==> acc[k].stampedAt - acc[k - 1].stampedAt >= CooldownMillis
    requires 0 <= i < j < |acc|
    ensures acc[j].stampedAt - acc[i].stampedAt >= CooldownMillis
    decreases j - i
  {
    if j > i + 1 {
      StampGap(acc, i, j - 1);
    }
  }

  lemma {:induction false} StampGapFrom(previous: int, acc: seq<Acceptance>, j: int)
    requires |acc| > 0 && acc[0].stampedAt - previous >= CooldownMillis
    requires forall k :: 0 < k < |acc| ==> acc[k].stampedAt - acc[k - 1].stampedAt >= CooldownMillis
    requires 0 <= j < |acc|
    ensures acc[j].stampedAt - previous >= CooldownMillis
    decreases j
  {
    if j > 0 {
      StampGapFrom(previous, acc, j - 1);
    }
  }

  /**
   * With a clock that does not run backwards within a callback, any two
   * accepted detections are stamped at least 3000 ms apart, and every one is
   * at least 3000 ms after the timestamp the run started with.
   */
  lemma AcceptedDetectionsSpaced(s: ScannerState, es: seq<Event>)
    requires ClockForward(es)
    ensures forall i, j :: 0 <= i < j < |Acceptances(s, es)| ==>
              Acceptances(s, es)[j].stampedAt - Acceptances(s, es)[i].stampedAt >= CooldownMillis
    ensures s.lastScanTimestamp.Some? ==>
              forall j :: 0 <= j < |Acceptances(s, es)| ==>
                Acceptances(s, es)[j].stampedAt - s.lastScanTimestamp.value >= CooldownMillis
  {
    var acc := Acceptances(s, es);
    AcceptancesAreGated(s, es);
    AcceptancesClockForward(s, es);
    assert forall k :: 0 < k < |acc| ==> acc[k].stampedAt - acc[k - 1].stampedAt >= CooldownMillis by {
      forall k | 0 < k < |acc|
        ensures acc[k].stampedAt - acc[k - 1].stampedAt >= CooldownMillis
      {
        assert GatePassed(Some(acc[k - 1].stampedAt), acc[k].checkedAt);
      }
    }
    forall i, j | 0 <= i < j < |acc|
      ensures acc[j].stampedAt - acc[i].stampedAt >= CooldownMillis
    {
      StampGap(acc, i, j);
    }
    if s.lastScanTimestamp.Some? && |acc| > 0 {
      forall j | 0 <= j < |acc|
        ensures acc[j].stampedAt - s.lastScanTimestamp.value >= CooldownMillis
      {
        StampGapFrom(s.lastScanTimestamp.value, acc, j);
      }
    }
  }

  function PendingCount(s: ScannerState): (r: nat)
  {
    if s.pendingCode.Some? then 1 else 0
  }

  /**
   * A run publishes at most once per accepted detection (plus once for a
   * code already pending when it starts): each publication consumes the
   * pending code, and only an acceptance sets it.
   */
  lemma {:induction false} PublicationsBounded(s: ScannerState, es: seq<Event>)
    ensures |Publications(s, es)| + PendingCount(Run(s, es)) <= |Acceptances(s, es)| + PendingCount(s)
    decreases |es|
  {
    if es != [] {
      var next := Apply(s, es[0]);
      PublicationsBounded(next, es[1..]);
      if es[0].AlertHideFired? {
        assert AlertHidden(s).(showAlert := s.showAlert) == s;
      }
      assert |PublicationOf(s, es[0])| + PendingCount(next) <= |AcceptanceOf(s, es[0])| + PendingCount(s);
    }
  }

  /** The code of some acceptance in `acc`. */
  predicate AcceptedCode(acc: seq<Acceptance>, c: string)
  {
    exists k :: 0 <= k < |acc| && acc[k].code == c
  }

  /**
   * The pending code is always the code of the latest accepted detection
   * (or, before any acceptance, the code pending at the start).
   */
  lemma {:induction false} PendingIsLatestAcceptance(s: ScannerState, es: seq<Event>)
    ensures var acc := Acceptances(s, es);
            Run(s, es).pendingCode.Some? ==>
              if acc == [] then Run(s, es).pendingCode == s.pendingCode
              else Run(s, es).pendingCode == Some(acc[|acc| - 1].code)
    decreases |es|
  {
    if es != [] {
      var next := Apply(s, es[0]);
      PendingIsLatestAcceptance(next, es[1..]);
      if es[0].AlertHideFired? {
        assert AlertHidden(s).(showAlert := s.showAlert) == s;
      }
      var head, tail := AcceptanceOf(s, es[0]), Acceptances(next, es[1..]);
      if tail != [] {
        assert (head + tail)[|head + tail| - 1] == tail[|tail| - 1];
      }
    }
  }

  /**
   * Every published code was decoded by an accepted detection of the run
   * (or was already pending when the run started).
   */
  lemma {:induction false} PublishedCodesWereAccepted(s: ScannerState, es: seq<Event>)
    ensures forall c :: c in Publications(s, es) ==>
              Some(c) == s.pendingCode || AcceptedCode(Acceptances(s, es), c)
    decreases |es|
  {
    if es != [] {
      var next := Apply(s, es[0]);
      PublishedCodesWereAccepted(next, es[1..]);
      if es[0].AlertHideFired? {
        assert AlertHidden(s).(showAlert := s.showAlert) == s;
      }
      var head, tail := AcceptanceOf(s, es[0]), Acceptances(next, es[1..]);
      forall c | c in Publications(s, es)
        ensures Some(c) == s.pendingCode || AcceptedCode(head + tail, c)
      {
        if c !in PublicationOf(s, es[0]) {
          assert c in Publications(next, es[1..]);
          if AcceptedCode(tail, c) {
            var k :| 0 <= k < |tail| && tail[k].code == c;
            assert (head + tail)[|head| + k] == tail[k];
          } else if head != [] {
            assert (head + tail)[0] == head[0];
          }
        }
      }
    }
  }

  /**
   * A second completion after a published one publishes nothing: the first
   * one cleared the pending code.
   */
  lemma SecondCompletionPublishesNothing(s: ScannerState, first: PhotoOutcome, second: PhotoOutcome)
    requires Publishes(s, first)
    ensures var after := CompletePhoto(s, first).state;
            CompletePhoto(after, second) == CompletionResult(after, false)
  {
  }

  /**
   * A scan at 0 ms is captured and published; a repeat at 1000 ms is
   * dropped; one exactly at 3000 ms and one at 6100 ms are both accepted.
   */
  lemma DebounceScenario(i: Image)
    ensures var code := [MachineReadableCode(Some("A"))];
            var es := [Detection(0, 0, code, true), PhotoCompletion(Photo(i)),
                       Detection(1000, 1000, code, true), Detection(3000, 3000, code, true),
                       Detection(6100, 6100, code, true)];
            && Acceptances(InitialState, es) ==
               [Acceptance(0, 0, "A"), Acceptance(3000, 3000, "A"), Acceptance(6100, 6100, "A")]
            && Publications(InitialState, es) == ["A"]
            && Run(InitialState, es).capturedImage == Some(i)
  {
    var code := [MachineReadableCode(Some("A"))];
    var es := [Detection(0, 0, code, true), PhotoCompletion(Photo(i)),
               Detection(1000, 1000, code, true), Detection(3000, 3000, code, true),
               Detection(6100, 6100, code, true)];
    var s1 := Apply(InitialState, es[0]);
    assert s1 == InitialState.(pendingCode := Some("A"), lastScanTimestamp := Some(0));
    var s2 := Apply(s1, es[1]);
    assert s2 == s1.(capturedImage := Some(i), scannedCode := Some("A"), showAlert := true,
                     pendingCode := None);
    var s3 := Apply(s2, es[2]);
    assert s3 == s2;
    var s4 := Apply(s3, es[3]);
    assert s4 == s3.(pendingCode := Some("A"), lastScanTimestamp := Some(3000));
    var s5 := Apply(s4, es[4]);
    assert s5 == s4.(lastScanTimestamp := Some(6100));
    assert es[1..] == [es[1], es[2], es[3], es[4]];
    assert es[1..][1..] == [es[2], es[3], es[4]];
    assert es[1..][1..][1..] == [es[3], es[4]];
    assert es[1..][1..][1..][1..] == [es[4]];
    assert Acceptances(s4, [es[4]]) == [Acceptance(6100, 6100, "A")];
    assert Acceptances(s3, [es[3], es[4]]) == [Acceptance(3000, 3000, "A"), Acceptance(6100, 6100, "A")];
    assert Acceptances(s2, [es[2], es[3], es[4]]) == Acceptances(s3, [es[3], es[4]]);
    assert Acceptances(s1, es[1..]) == Acceptances(s2, [es[2], es[3], es[4]]);
    assert Publications(s4, [es[4]]) == [];
    assert Publications(s3, [es[3], es[4]]) == [];
    assert Publications(s2, [es[2], es[3], es[4]]) == [];
    assert Publications(s1, es[1..]) == ["A"];
    assert Run(s4, [es[4]]) == s5;
    assert Run(s3, [es[3], es[4]]) == s5;
    assert Run(s2, [es[2], es[3], es[4]]) == s5;
    assert Run(s1, es[1..]) == s5;
  }
}
