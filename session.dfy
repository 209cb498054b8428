/** The scan session of app.js: the globals `stream`, `scanning` and `currentCard`, and the
    callbacks `startCamera`, `scanFrame`, `stopCamera`, `handleLogin` and the timeouts
    they schedule. The browser's event loop is modelled by counting the pending callbacks of
    each kind; each method below is one callback running to completion, and the caller
    picks which pending callback fires next (any interleaving the browser allows). */
module Session {
  import opened Wrappers
  import opened Credentials
  import opened Recognition

  /** The stream list `stopCamera` stops: the open stream, if any. */
  function Released(stream: Option<nat>): seq<nat> {
    if stream.Some? then [stream.value] else []
  }

  class Kiosk {
    /** `scanning`. */
    var scanning: bool
    /** `stream`: the open camera stream, numbered in the order the streams were granted. */
    var stream: Option<nat>
    /** How many streams `getUserMedia` has granted so far. */
    var grants: nat
    /** The streams whose tracks have been stopped, in order. */
    var stopped: seq<nat>
    /** `currentCard`. */
    var currentCard: string
    /** The cards `showSuccess` has put on the success screen, in order. */
    var shown: seq<string>

    // Pending callbacks, by kind.
    /** `setTimeout(scanFrame, 100)` and `setTimeout(scanFrame, 400)` not yet fired. */
    var ticks: nat
    /** `toBlob` callbacks waiting on the OCR service. */
    var requests: nat
    /** `toBlob` callbacks waiting on `localOCR`. */
    var localRuns: nat
    /** `setTimeout(() => { stopCamera(); showSuccess(); }, 800)` after a scan match. */
    var settles: nat
    /** `setTimeout(showSuccess, 800)` after a manual login. */
    var successes: nat

    /** Pending callbacks that belong to a scan loop: each one keeps a loop alive. */
    function Loops(): nat
      reads this`ticks, this`requests, this`localRuns
    {
      ticks + requests + localRuns
    }

    /** Every invariant but the liveness of the scan loop, which holds again once the
        running callback has scheduled its successor. */
    ghost predicate Sound()
      reads this`scanning, this`stream, this`grants, this`stopped, this`currentCard, this`shown
      reads this`settles, this`successes
    {
      // only a granted stream is scanned
      (scanning ==> stream.Some?) &&
      // streams are stopped at most once, and the open one is not among them
      (forall i, j :: 0 <= i < j < |stopped| ==> stopped[i] != stopped[j]) &&
      (forall i :: 0 <= i < |stopped| ==> stopped[i] < grants) &&
      (stream.Some? ==> stream.value < grants && stream.value !in stopped) &&
      // only listed cards are ever recorded or shown
      (currentCard == [] || IsKnownCard(Cards, currentCard)) &&
      (settles + successes > 0 ==> IsKnownCard(Cards, currentCard)) &&
      (forall i :: 0 <= i < |shown| ==> IsKnownCard(Cards, shown[i]))
    }

    ghost predicate Valid()
      reads this`scanning, this`stream, this`grants, this`stopped, this`currentCard, this`shown
      reads this`settles, this`successes, this`ticks, this`requests, this`localRuns
    {
      // a scan always has a pending callback to continue it
      Sound() && (scanning ==> Loops() > 0)
    }

    /** The page as loaded: no stream, not scanning, no card, nothing pending. */
    constructor ()
      ensures Valid()
      ensures !scanning && stream == None && grants == 0 && stopped == []
      ensures currentCard == [] && shown == []
      ensures ticks == 0 && requests == 0 && localRuns == 0 && settles == 0 && successes == 0
    {
      scanning := false;
      stream := None;
      grants := 0;
      stopped := [];
      currentCard := [];
      shown := [];
      ticks, requests, localRuns, settles, successes := 0, 0, 0, 0, 0;
    }

    /** `stopCamera`: scanning stops and the open stream, if any, is stopped and dropped.
        Calling it again stops nothing more. */
    method StopCamera()
      requires Valid()
      modifies this
      ensures Valid()
      ensures !scanning && stream == None
      ensures stopped == old(stopped) + Released(old(stream))
      ensures unchanged(this`grants, this`currentCard, this`shown)
      ensures unchanged(this`ticks, this`requests, this`localRuns, this`settles, this`successes)
    {
      scanning := false;
      if stream.Some? {
        stopped := stopped + [stream.value];
        stream := None;
      }
    }

    /** `scanFrame` up to the point where it hands the frame to `toBlob`: nothing once
        scanning has stopped, a 100 ms retry while the video has no frame, otherwise one
        recognition request. */
    method ScanFrame(frameReady: bool)
      modifies this
      ensures ticks == old(ticks) + (if old(scanning) && !frameReady then 1 else 0)
      ensures requests == old(requests) + (if old(scanning) && frameReady then 1 else 0)
      ensures unchanged(this`scanning, this`stream, this`grants, this`stopped, this`currentCard, this`shown)
      ensures unchanged(this`localRuns, this`settles, this`successes)
    {
      if !scanning {
        return;
      }
      if !frameReady {
        ticks := ticks + 1;
        return;
      }
      requests := requests + 1;
    }

    /** `startCamera`, with `getUserMedia` granting a new stream or refusing. A grant opens
        a stream and starts exactly one scan loop; a refusal runs `stopCamera`. */
    method StartCamera(granted: bool, frameReady: bool)
      requires Valid()
      modifies this
      ensures Valid()
      ensures granted ==> scanning && stream == Some(old(grants)) && grants == old(grants) + 1
                          && stopped == old(stopped)
      ensures !granted ==> !scanning && stream == None && grants == old(grants)
                           && stopped == old(stopped) + Released(old(stream))
      ensures ticks == old(ticks) + (if granted && !frameReady then 1 else 0)
      ensures requests == old(requests) + (if granted && frameReady then 1 else 0)
      ensures Loops() == old(Loops()) + (if granted then 1 else 0)
      ensures unchanged(this`currentCard, this`shown, this`localRuns, this`settles, this`successes)
    {
      if granted {
        stream := Some(grants);
        grants := grants + 1;
        scanning := true;
        ScanFrame(frameReady);
      } else {
        StopCamera();
      }
    }

    /** A scheduled `scanFrame` fires. It replaces itself by at most one callback, and once
        scanning has stopped by none, so the loop ends. */
    method FireTick(frameReady: bool)
      requires Valid() && ticks > 0
      modifies this
      ensures Valid()
      ensures ticks == old(ticks) - 1 + (if old(scanning) && !frameReady then 1 else 0)
      ensures requests == old(requests) + (if old(scanning) && frameReady then 1 else 0)
      ensures unchanged(this`scanning, this`stream, this`grants, this`stopped, this`currentCard, this`shown)
      ensures unchanged(this`localRuns, this`settles, this`successes)
      ensures Loops() == old(Loops()) - (if old(scanning) then 0 else 1)
    {
      ticks := ticks - 1;
      ScanFrame(frameReady);
    }

    /** The end of the `toBlob` callback once recognition is over, `found` being the card a
        match confirmed: a match records the card, stops scanning and schedules the settle
        timeout, even when the scan was cancelled meanwhile; otherwise the loop retries in
        400 ms while still scanning. */
    method Conclude(found: Option<string>)
      requires Sound()
      requires found.Some? ==> IsKnownCard(Cards, found.value)
      modifies this
      ensures Valid()
      ensures found.Some? ==> !scanning && currentCard == found.value && settles == old(settles) + 1
                              && ticks == old(ticks)
      ensures found.None? ==> scanning == old(scanning) && currentCard == old(currentCard)
                              && settles == old(settles) && ticks == old(ticks) + (if old(scanning) then 1 else 0)
      ensures unchanged(this`stream, this`grants, this`stopped, this`shown)
      ensures unchanged(this`requests, this`localRuns, this`successes)
    {
      if found.Some? {
        currentCard := found.value;
        scanning := false;
        settles := settles + 1;
      } else if scanning {
        ticks := ticks + 1;
      }
    }

    /** The `toBlob` callback resumes with the OCR service's reply. A listed pair is a
        match; a rejected request waits on local OCR, exactly once; anything else ends the
        attempt without a match. */
    method RemoteReplyArrives(reply: RemoteReply)
      requires Valid() && requests > 0
      modifies this
      ensures Valid()
      ensures requests == old(requests) - 1
      ensures match RemoteOutcome(reply)
        case Confirmed(card) =>
          !scanning && currentCard == card && settles == old(settles) + 1
          && ticks == old(ticks) && localRuns == old(localRuns)
        case FallBackToLocal =>
          scanning == old(scanning) && currentCard == old(currentCard) && settles == old(settles)
          && ticks == old(ticks) && localRuns == old(localRuns) + 1
        case TryAgain =>
          scanning == old(scanning) && currentCard == old(currentCard) && settles == old(settles)
          && ticks == old(ticks) + (if old(scanning) then 1 else 0) && localRuns == old(localRuns)
      ensures unchanged(this`stream, this`grants, this`stopped, this`shown, this`successes)
      ensures Loops() <= old(Loops())
    {
      requests := requests - 1;
      match RemoteOutcome(reply)
      case Confirmed(card) =>
        RemoteCardIsKnown(reply);
        Conclude(Some(card));
      case FallBackToLocal =>
        localRuns := localRuns + 1;
      case TryAgain =>
        Conclude(None);
    }

    /** `localOCR` resumes with the engine's outcome, then the `toBlob` callback ends. */
    method LocalResultArrives(reply: LocalReply)
      requires Valid() && localRuns > 0
      modifies this
      ensures Valid()
      ensures localRuns == old(localRuns) - 1
      ensures LocalOutcome(reply).Some? ==>
        !scanning && currentCard == LocalOutcome(reply).value
        && settles == old(settles) + 1 && ticks == old(ticks)
      ensures LocalOutcome(reply).None? ==>
        scanning == old(scanning) && currentCard == old(currentCard)
        && settles == old(settles) && ticks == old(ticks) + (if old(scanning) then 1 else 0)
      ensures unchanged(this`stream, this`grants, this`stopped, this`shown, this`requests, this`successes)
      ensures Loops() <= old(Loops())
    {
      LocalCardIsKnown(reply);
      LocalRunEnds(LocalOutcome(reply));
    }

    /** A waiting `localOCR` ends with `found` as the card it confirmed, if any. */
    method LocalRunEnds(found: Option<string>)
      requires Valid() && localRuns > 0
      requires found.Some? ==> IsKnownCard(Cards, found.value)
      modifies this
      ensures Valid()
      ensures localRuns == old(localRuns) - 1
      ensures found.Some? ==> !scanning && currentCard == found.value
                              && settles == old(settles) + 1 && ticks == old(ticks)
      ensures found.None? ==> scanning == old(scanning) && currentCard == old(currentCard)
                              && settles == old(settles) && ticks == old(ticks) + (if old(scanning) then 1 else 0)
      ensures unchanged(this`stream, this`grants, this`stopped, this`shown, this`requests, this`successes)
      ensures Loops() <= old(Loops())
    {
      localRuns := localRuns - 1;
      Conclude(found);
    }

    /** The settle timeout after a scan match: `stopCamera()` releases the stream, then
        `showSuccess()` shows the recorded card. */
    method SettleFires()
      requires Valid() && settles > 0
      modifies this
      ensures Valid()
      ensures !scanning && stream == None && stopped == old(stopped) + Released(old(stream))
      ensures shown == old(shown) + [old(currentCard)] && settles == old(settles) - 1
      ensures unchanged(this`grants, this`currentCard)
      ensures unchanged(this`ticks, this`requests, this`localRuns, this`successes)
    {
      settles := settles - 1;
      StopCamera();
      shown := shown + [currentCard];
    }

    /** The timeout after a manual login: `showSuccess()` shows the recorded card. */
    method ShowSuccessFires()
      requires Valid() && successes > 0
      modifies this
      ensures Valid()
      ensures shown == old(shown) + [old(currentCard)] && successes == old(successes) - 1
      ensures unchanged(this`scanning, this`stream, this`grants, this`stopped, this`currentCard)
      ensures unchanged(this`ticks, this`requests, this`localRuns, this`settles)
    {
      successes := successes - 1;
      shown := shown + [currentCard];
    }

    /** `handleLogin`: on a match the trimmed card is recorded and the success screen is
        scheduled; otherwise nothing changes. The scan state is never touched. */
    method HandleLogin(cardInput: string, pinInput: string) returns (outcome: LoginOutcome)
      requires Valid()
      modifies this
      ensures Valid()
      ensures outcome == ManualLogin(Cards, cardInput, pinInput)
      ensures outcome.Accepted? ==> currentCard == outcome.card && successes == old(successes) + 1
      ensures !outcome.Accepted? ==> currentCard == old(currentCard) && successes == old(successes)
      ensures unchanged(this`scanning, this`stream, this`grants, this`stopped, this`shown)
      ensures unchanged(this`ticks, this`requests, this`localRuns, this`settles)
    {
      outcome := ManualLogin(Cards, cardInput, pinInput);
      if outcome.Accepted? {
        AcceptedCardIsKnown(Cards, cardInput, pinInput);
        Welcome(outcome.card);
      }
    }

    /** A manual login succeeded: record `card` and schedule the success screen. */
    method Welcome(card: string)
      requires Valid() && IsKnownCard(Cards, card)
      modifies this
      ensures Valid()
      ensures currentCard == card && successes == old(successes) + 1
      ensures unchanged(this`scanning, this`stream, this`grants, this`stopped, this`shown)
      ensures unchanged(this`ticks, this`requests, this`localRuns, this`settles)
    {
      currentCard := card;
      successes := successes + 1;
    }
  }

  /** Cancelling while the OCR request is in flight does not discard its result: the
      reply still records the card, and the settle timeout shows the success screen. */
  method CancelledScanStillSignsIn() returns (k: Kiosk)
    ensures !k.scanning && k.stream == None && k.stopped == [0]
    ensures k.currentCard == "2269727192" && k.shown == ["2269727192"]
  {
    k := new Kiosk();
    k.StartCamera(true, true);
    k.StopCamera();
    k.RemoteReplyArrives(Body(Str("2269727192"), Str("455427")));
    k.SettleFires();
  }

  /** Cancelling and restarting while a request is in flight leaves two scan loops
      running side by side once that request comes back without a match. */
  method RestartDuringRecognitionRunsTwoLoops() returns (k: Kiosk)
    ensures k.scanning && k.ticks == 2 && k.Loops() == 2
  {
    k := new Kiosk();
    k.StartCamera(true, true);
    k.StopCamera();
    k.StartCamera(true, false);
    k.RemoteReplyArrives(NotOk);
  }
}
