/**
 Waiting until a virtual machine's IP address has settled: the loop restarts its
 window whenever the address changes and ends once the same address is seen
 after the window has closed.
 */
module WaitForIp {
  import opened Wrappers

  /**
   One turn of the loop: the address read (None is an error, "" no address yet),
   whether the context was cancelled right after, the clock reading taken in this
   turn, and whether a wait after it was interrupted.
   */
  datatype Sample = Sample(ip: Option<string>, cancelled: bool, now: int, interrupted: bool)

  /** Pending: the samples ran out before the loop ended. */
  datatype Outcome = Settled(ip: string) | Failed | Pending

  /** The turn ends the loop with an error whatever came before. */
  predicate Breaks(s: Sample) {
    s.ip.None? || s.cancelled || (s.ip == Some("") && s.interrupted)
  }

  /** The loop from a state: the address last seen and the time its window closes. */
  function Wait(samples: seq<Sample>, settleTimeout: int, prevIp: string, stopTime: int): Outcome
    decreases |samples|
  {
    if samples == [] then Pending
    else
      var s := samples[0];
      if Breaks(s) then Failed
      else if s.ip.value == "" then Wait(samples[1..], settleTimeout, prevIp, stopTime)
      else if prevIp != s.ip.value then Wait(samples[1..], settleTimeout, s.ip.value, s.now + settleTimeout)
      else if s.now > stopTime then Settled(s.ip.value)
      else if s.interrupted then Failed
      else Wait(samples[1..], settleTimeout, prevIp, stopTime)
  }

  /** doGetIp over a finite trace of turns. */
  method DoGetIp(samples: seq<Sample>, settleTimeout: int) returns (outcome: Outcome)
    ensures outcome == Wait(samples, settleTimeout, "", 0)
  {
    var prevIp, stopTime := "", 0;
    for n := 0 to |samples|
      invariant Wait(samples, settleTimeout, "", 0) == Wait(samples[n..], settleTimeout, prevIp, stopTime)
    {
      var s := samples[n];
      assert samples[n..][1..] == samples[n + 1..];
      if s.ip.None? {
        return Failed;
      }
      if s.cancelled {
        return Failed;
      }
      var ip := s.ip.value;
      if ip == "" {
        if s.interrupted {
          return Failed;
        }
        continue;
      }
      if prevIp == "" || prevIp != ip {
        prevIp := ip;
        stopTime := s.now + settleTimeout;
        continue;
      }
      if s.now > stopTime {
        return Settled(ip);
      }
      if s.interrupted {
        return Failed;
      }
    }
    return Pending;
  }

  // ----- runs of one address -----

  predicate Shows(s: Sample, ip: string) {
    s.ip == Some(ip)
  }

  /** Where the current run of one address began, after the first n samples. */
  function RunStart(samples: seq<Sample>, n: nat): (t: Option<nat>)
    requires n <= |samples|
    ensures t.Some? ==> t.value < n && samples[t.value].ip.Some? && samples[t.value].ip.value != ""
  {
    if n == 0 then None
    else
      var before := RunStart(samples, n - 1);
      var ip := samples[n - 1].ip;
      if ip.None? || ip.value == "" then before
      else if before.Some? && samples[before.value].ip == ip then before
      else Some(n - 1)
  }

  /** From its start on, a run shows one address or none; before it, another address came last. */
  lemma {:induction false} RunShowsOneAddress(samples: seq<Sample>, n: nat)
    requires n <= |samples| && RunStart(samples, n).Some?
    ensures var t := RunStart(samples, n).value;
            && (forall k :: t <= k < n && samples[k].ip.Some? && samples[k].ip.value != "" ==>
                samples[k].ip == samples[t].ip)
            && (RunStart(samples, t).Some? ==> samples[RunStart(samples, t).value].ip != samples[t].ip)
  {
    if RunStart(samples, n) != Some(n - 1) {
      RunShowsOneAddress(samples, n - 1);
    }
  }

  /** Turn k ends the loop successfully: it repeats the run's address after the window closed. */
  predicate SettlesAt(samples: seq<Sample>, settleTimeout: int, k: nat)
    requires k < |samples|
  {
    var t := RunStart(samples, k);
    && t.Some? && !Breaks(samples[k]) && samples[k].ip == samples[t.value].ip
    && samples[k].now > samples[t.value].now + settleTimeout
  }

  /** Turn k ends the loop with an error: it breaks, or an open window's wait is interrupted. */
  predicate FailsAt(samples: seq<Sample>, settleTimeout: int, k: nat)
    requires k < |samples|
  {
    || Breaks(samples[k])
    || (var t := RunStart(samples, k);
        && t.Some? && samples[k].ip == samples[t.value].ip
        && samples[k].now <= samples[t.value].now + settleTimeout && samples[k].interrupted)
  }

  /** No run has begun exactly while no address has been read. */
  lemma {:induction false} RunStartNone(samples: seq<Sample>, n: nat)
    requires n <= |samples|
    ensures RunStart(samples, n).None? <==>
              forall k :: 0 <= k < n ==> samples[k].ip.None? || samples[k].ip == Some("")
  {
    if n > 0 {
      RunStartNone(samples, n - 1);
    }
  }

  /** The state the loop carries after n turns. */
  ghost predicate StateAfter(samples: seq<Sample>, settleTimeout: int, n: nat, prevIp: string, stopTime: int)
    requires n <= |samples|
  {
    var t := RunStart(samples, n);
    if t.None? then prevIp == ""
    else samples[t.value].ip == Some(prevIp) && stopTime == samples[t.value].now + settleTimeout
  }

  lemma {:induction false} WaitFrom(samples: seq<Sample>, settleTimeout: int, n: nat, prevIp: string, stopTime: int,
                                    k: nat)
    requires n <= |samples| && StateAfter(samples, settleTimeout, n, prevIp, stopTime)
    requires n <= k < |samples|
    requires forall j :: n <= j < k ==> !SettlesAt(samples, settleTimeout, j) && !FailsAt(samples, settleTimeout, j)
    ensures SettlesAt(samples, settleTimeout, k) ==>
            Wait(samples[n..], settleTimeout, prevIp, stopTime) == Settled(samples[k].ip.value)
    ensures FailsAt(samples, settleTimeout, k) && !SettlesAt(samples, settleTimeout, k) ==>
              Wait(samples[n..], settleTimeout, prevIp, stopTime) == Failed
    decreases k - n
  {
    var s := samples[n];
    assert samples[n..][0] == s && samples[n..][1..] == samples[n + 1..];
    if n < k {
      assert !SettlesAt(samples, settleTimeout, n) && !FailsAt(samples, settleTimeout, n);
      if s.ip.value == "" || s.ip.value == prevIp {
        WaitFrom(samples, settleTimeout, n + 1, prevIp, stopTime, k);
      } else {
        WaitFrom(samples, settleTimeout, n + 1, s.ip.value, s.now + settleTimeout, k);
      }
    }
  }

  lemma {:induction false} WaitQuiet(samples: seq<Sample>, settleTimeout: int, n: nat, prevIp: string, stopTime: int)
    requires n <= |samples| && StateAfter(samples, settleTimeout, n, prevIp, stopTime)
    requires forall j :: n <= j < |samples| ==>
            !SettlesAt(samples, settleTimeout, j) && !FailsAt(samples, settleTimeout, j)
    ensures Wait(samples[n..], settleTimeout, prevIp, stopTime) == Pending
    decreases |samples| - n
  {
    if n < |samples| {
      var s := samples[n];
      assert samples[n..][0] == s && samples[n..][1..] == samples[n + 1..];
      assert !SettlesAt(samples, settleTimeout, n) && !FailsAt(samples, settleTimeout, n);
      if s.ip.value == "" || s.ip.value == prevIp {
        WaitQuiet(samples, settleTimeout, n + 1, prevIp, stopTime);
      } else {
        WaitQuiet(samples, settleTimeout, n + 1, s.ip.value, s.now + settleTimeout);
      }
    }
  }

  /** Turn k is the first to end the loop. */
  predicate FirstEnd(samples: seq<Sample>, settleTimeout: int, k: nat)
    requires k < |samples|
  {
    && (SettlesAt(samples, settleTimeout, k) || FailsAt(samples, settleTimeout, k))
    && forall j :: 0 <= j < k ==> !SettlesAt(samples, settleTimeout, j) && !FailsAt(samples, settleTimeout, j)
  }

  lemma {:induction false} FindEnd(samples: seq<Sample>, settleTimeout: int, n: nat) returns (k: nat)
    requires n <= |samples|
    requires forall j :: 0 <= j < n ==> !SettlesAt(samples, settleTimeout, j) && !FailsAt(samples, settleTimeout, j)
    ensures k < |samples| ==> FirstEnd(samples, settleTimeout, k)
    ensures k >= |samples| ==>
              forall j :: 0 <= j < |samples| ==>
                !SettlesAt(samples, settleTimeout, j) && !FailsAt(samples, settleTimeout, j)
    decreases |samples| - n
  {
    if n == |samples| || SettlesAt(samples, settleTimeout, n) || FailsAt(samples, settleTimeout, n) {
      k := n;
    } else {
      k := FindEnd(samples, settleTimeout, n + 1);
    }
  }

  /**
   Exactly when the wait succeeds: the first turn to end the loop repeats the
   address of the current run after that run's window has closed.
   */
  lemma {:induction false} SettledIff(samples: seq<Sample>, settleTimeout: int, ip: string)
    ensures Wait(samples, settleTimeout, "", 0) == Settled(ip) <==>
              exists k :: 0 <= k < |samples| && FirstEnd(samples, settleTimeout, k)
                          && SettlesAt(samples, settleTimeout, k) && samples[k].ip == Some(ip)
  {
    assert samples[0..] == samples;
    var k := FindEnd(samples, settleTimeout, 0);
    if k < |samples| {
      WaitFrom(samples, settleTimeout, 0, "", 0, k);
      forall j | 0 <= j < |samples| && FirstEnd(samples, settleTimeout, j)
        ensures j == k
      {
      }
    } else {
      WaitQuiet(samples, settleTimeout, 0, "", 0);
    }
  }

  /** The turn reads the run's address for a longer time than the settle time. */
  predicate Outlasts(samples: seq<Sample>, settleTimeout: int, k: nat)
    requires k < |samples|
  {
    var t := RunStart(samples, k);
    t.Some? && samples[k].ip == samples[t.value].ip && samples[k].now > samples[t.value].now + settleTimeout
  }

  /** The turn reads the run's address within the settle time. */
  predicate Within(samples: seq<Sample>, settleTimeout: int, k: nat)
    requires k < |samples|
  {
    var t := RunStart(samples, k);
    t.Some? && samples[k].ip == samples[t.value].ip && samples[k].now <= samples[t.value].now + settleTimeout
  }

  /** A turn settles the wait when it outlasts the window and nothing went wrong; it fails it otherwise as listed. */
  lemma TurnEnds(samples: seq<Sample>, settleTimeout: int, k: nat)
    requires k < |samples|
    ensures var s := samples[k];
            && (SettlesAt(samples, settleTimeout, k) <==>
                s.ip.Some? && !s.cancelled && s.ip != Some("") && Outlasts(samples, settleTimeout, k))
            && (FailsAt(samples, settleTimeout, k) <==>
                  || s.ip.None? || s.cancelled
                  || (s.interrupted && (s.ip == Some("") || Within(samples, settleTimeout, k))))
  {
    hide RunStart;
  }

  /** Exactly when the wait fails: the first turn to end the loop is one that fails it. */
  lemma {:induction false} FailedIff(samples: seq<Sample>, settleTimeout: int)
    ensures Wait(samples, settleTimeout, "", 0) == Failed <==>
              exists k :: 0 <= k < |samples| && FirstEnd(samples, settleTimeout, k)
                          && FailsAt(samples, settleTimeout, k)
  {
    assert samples[0..] == samples;
    var k := FindEnd(samples, settleTimeout, 0);
    if k < |samples| {
      WaitFrom(samples, settleTimeout, 0, "", 0, k);
      SettlesOrFails(samples, settleTimeout, k);
      forall j | 0 <= j < |samples| && FirstEnd(samples, settleTimeout, j)
        ensures j == k
      {
      }
    } else {
      WaitQuiet(samples, settleTimeout, 0, "", 0);
    }
  }

  lemma SettlesOrFails(samples: seq<Sample>, settleTimeout: int, k: nat)
    requires k < |samples|
    ensures !(SettlesAt(samples, settleTimeout, k) && FailsAt(samples, settleTimeout, k))
  {
    hide RunStart, Breaks;
  }

  /**
   A settled address was read at least twice, at t and on the turn k that ended the
   wait; every address read from t to k is that one, and more than the settle time
   has passed between them.
   */
  lemma {:induction false} SettledIsStable(samples: seq<Sample>, settleTimeout: int, ip: string)
    requires Wait(samples, settleTimeout, "", 0) == Settled(ip)
    ensures exists t, k :: 0 <= t < k < |samples| && FirstEnd(samples, settleTimeout, k)
                           && Shows(samples[t], ip) && Shows(samples[k], ip)
                           && samples[k].now > samples[t].now + settleTimeout
                           && forall j :: t <= j <= k ==> Shows(samples[j], ip) || Shows(samples[j], "")
  {
    SettledIff(samples, settleTimeout, ip);
    var k :| 0 <= k < |samples| && FirstEnd(samples, settleTimeout, k)
             && SettlesAt(samples, settleTimeout, k) && samples[k].ip == Some(ip);
    RunShowsOneAddress(samples, k);
    var t := RunStart(samples, k).value;
    hide Wait, RunStart;
    forall j | t <= j <= k
      ensures Shows(samples[j], ip) || Shows(samples[j], "")
    {
      assert j < k ==> !FailsAt(samples, settleTimeout, j);
    }
    assert Shows(samples[t], ip) && Shows(samples[k], ip);
  }

  /** A turn without an address neither restarts the window nor moves it on. */
  lemma {:induction false} EmptyTurnIsNeutral(samples: seq<Sample>, at: nat, settleTimeout: int, prevIp: string,
                                              stopTime: int)
    requires at < |samples| && samples[at].ip == Some("") && !Breaks(samples[at])
    ensures Wait(samples[..at] + samples[at + 1..], settleTimeout, prevIp, stopTime)
            == Wait(samples, settleTimeout, prevIp, stopTime)
  {
    var shorter := samples[..at] + samples[at + 1..];
    if at == 0 {
      assert shorter == samples[1..];
    } else {
      var s := samples[0];
      assert shorter[0] == s && shorter[1..] == samples[1..][..at - 1] + samples[1..][at..];
      if !Breaks(s) {
        EmptyTurnIsNeutral(samples[1..], at - 1, settleTimeout, prevIp, stopTime);
        EmptyTurnIsNeutral(samples[1..], at - 1, settleTimeout, s.ip.value, s.now + settleTimeout);
      }
    }
  }
}
