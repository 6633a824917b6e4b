/** The kill switches of both boards watched from outside: what each was last told, and what follows. */
module KillWatch {
  import opened KillSwitch

  /** What a switch was last told, and when. */
  datatype Word = Never | Said(asserting: bool, needsUpdate: bool, at: nat)

  /**
   * A switch asserts kill until it is told otherwise, and a switch that has to be updated kills after
   * half a second of silence.
   */
  predicate Alarming(w: Word, now: nat) {
    w.Said? && (w.asserting || (w.needsUpdate && w.at + KILL_SWITCH_TIMEOUT_US < now))
  }

  predicate MustBeKilled(words: seq<Word>, now: nat) {
    || (forall i :: 0 <= i < |words| ==> words[i].Never?)
    || (exists i :: 0 <= i < |words| && Alarming(words[i], now))
  }

  predicate SwitchAgrees(sw: Switch, w: Word, name: seq<bv8>) {
    && sw.enabled == w.Said?
    && (w.Said? ==> sw.asserting == w.asserting && sw.needsUpdate == w.needsUpdate && sw.timeout == w.at + KILL_SWITCH_TIMEOUT_US)
    && |sw.frame| == FRAME_SIZE && CStr(sw.frame) == name && |name| < FRAME_SIZE
  }

  predicate SwitchesAgree(switches: seq<Switch>, words: seq<Word>, names: seq<seq<bv8>>) {
    && |words| == |names| == |switches|
    && forall i :: 0 <= i < |switches| ==> SwitchAgrees(switches[i], words[i], names[i])
  }

  lemma MustKillAgrees(switches: seq<Switch>, words: seq<Word>, names: seq<seq<bv8>>, now: nat)
    requires SwitchesAgree(switches, words, names)
    ensures MustKill(switches, now) == MustBeKilled(words, now)
  {
    forall i | 0 <= i < |switches|
      ensures Kills(switches[i], now) == Alarming(words[i], now) && switches[i].enabled == words[i].Said?
    {
      assert SwitchAgrees(switches[i], words[i], names[i]);
    }
    if i :| 0 <= i < |switches| && Kills(switches[i], now) { assert Alarming(words[i], now); }
  }
}
