/** The kill switches as the safety library of both boards keeps them, updated in place. */
module KillSwitchLibrary {
  import opened KillSwitch

  /** Which function of the board the library calls. */
  datatype Notice = Nothing | KillRobot | EnableRobot

  function Unused(): Switch {
    Switch(false, false, false, 0, seq(FRAME_SIZE, _ => 0))
  }

  class KillSwitches {
    const states: array<Switch>
    var initialized: bool
    var assertingKill: bool         // the last state
    var lastChange: nat

    ghost function State(): Safety
      reads this, states
    {
      Safety(states[..], initialized, assertingKill, lastChange)
    }

    constructor (switches: nat)
      ensures fresh(states) && State() == Safety(seq(switches, _ => Unused()), false, true, 0)
    {
      states := new Switch[switches](_ => Unused());
      initialized, assertingKill, lastChange := false, true, 0;
    }

    method Initialize(now: nat)
      modifies this`initialized, this`lastChange
      ensures State() == old(State()).(initialized := true, lastChange := now)
    {
      initialized := true;
      lastChange := now;
    }

    method LocalKillRobot(now: nat) returns (notice: Notice)
      modifies this`assertingKill, this`lastChange
      ensures notice == KillRobot && State() == old(State()).(killed := true, lastChange := now)
    {
      assertingKill := true;
      lastChange := now;
      notice := KillRobot;
    }

    /** Looks for a switch that kills, and counts the enabled ones until it finds it. */
    method AssertingKill(now: nat) returns (asserting: bool)
      ensures asserting == MustKill(states[..], now)
    {
      asserting := false;
      var enabled := 0;
      var i := 0;
      while i < states.Length && !asserting
        invariant 0 <= i <= states.Length
        invariant asserting ==> exists k :: 0 <= k < i && Kills(states[k], now)
        invariant !asserting ==> forall k :: 0 <= k < i ==> !Kills(states[k], now)
        invariant enabled >= 0 && (asserting ==> enabled > 0)
        invariant enabled == 0 <==> forall k :: 0 <= k < i ==> !states[k].enabled
      {
        var sw := states[i];
        if sw.enabled {
          enabled := enabled + 1;
          if sw.asserting || (sw.needsUpdate && sw.timeout < now) {
            asserting := true;
          }
        }
        i := i + 1;
      }
      if enabled == 0 { asserting := true; }
    }

    /** The tick of the library: the board is told when the state changes. */
    method RefreshKillSwitches(now: nat) returns (notice: Notice)
      modifies this`assertingKill, this`lastChange
      ensures State() == Refresh(old(State()), now)
      ensures notice == KillRobot <==> !old(assertingKill) && MustKill(states[..], now)
      ensures notice == EnableRobot <==> old(assertingKill) && !MustKill(states[..], now)
      ensures lastChange == if notice == Nothing then old(lastChange) else now
    {
      notice := Nothing;
      var asserting := AssertingKill(now);
      if assertingKill != asserting {
        assertingKill := asserting;
        if asserting {
          notice := LocalKillRobot(now);
        } else {
          lastChange := now;
          notice := EnableRobot;
        }
      }
    }

    /** One switch is updated; once the library is initialized, a kill takes effect at once. */
    method KillSwitchUpdate(i: nat, asserting: bool, needsUpdate: bool, now: nat) returns (notice: Notice)
      requires i < states.Length
      modifies this`assertingKill, this`lastChange, states
      ensures State() == Update(old(State()), i, asserting, needsUpdate, now)
      ensures notice == if initialized && asserting then KillRobot else Nothing
    {
      notice := Nothing;
      var sw := states[i];
      sw := sw.(asserting := asserting);
      sw := sw.(timeout := now + KILL_SWITCH_TIMEOUT_US);
      sw := sw.(needsUpdate := needsUpdate);
      sw := sw.(enabled := true);
      states[i] := sw;
      if initialized && asserting {
        notice := LocalKillRobot(now);
      }
    }
  }
}
