/** Multi-step fleet workflows of `ice-experiment/cc.py`: each later step runs
    fleet-wide only if every host succeeded at the step before it. */
module Workflow {
  import opened Outcomes
  import opened Wrappers

  /** A step whose success on every host is required before the chain goes on,
      with the diagnostic printed when it is not. */
  datatype GatedStep = GatedStep(banner: string, results: Results)

  /** What a chain did: how many steps ran, whether it returned `False`, and
      the lines it printed. */
  datatype ChainRun = ChainRun(stepsRun: nat, returnedFalse: bool, lines: seq<string>)

  /** Runs the gated steps in order and then the last step. A failed gate
      prints its banner and that step's outcomes and returns `False`; a passed
      gate prints nothing. The last step's outcomes are printed and the runner
      falls through (returns `None`). `gated[i].results` and `last` stand for
      what each step would return if it ran; a step after a failed gate is
      never looked at. */
  function RunChain(gated: seq<GatedStep>, last: Results): (r: ChainRun)
    ensures 1 <= r.stepsRun <= |gated| + 1
    decreases |gated|
  {
    if |gated| == 0 then ChainRun(1, false, PrintOutcomes(last))
    else if !Gate(gated[0].results) then
      ChainRun(1, true, [gated[0].banner] + PrintOutcomes(gated[0].results))
    else
      var rest := RunChain(gated[1..], last);
      ChainRun(rest.stepsRun + 1, rest.returnedFalse, rest.lines)
  }

  /** Index of the first gated step whose gate fails; `|gated|` when all pass. */
  function FirstFailedGate(gated: seq<GatedStep>): (k: nat)
    ensures k <= |gated|
    ensures forall i :: 0 <= i < k ==> Gate(gated[i].results)
    ensures k < |gated| ==> !Gate(gated[k].results)
    decreases |gated|
  {
    if |gated| == 0 then 0
    else if !Gate(gated[0].results) then 0
    else 1 + FirstFailedGate(gated[1..])
  }

  /** The chain runs exactly up to and including the first failed gate, returns
      `False` exactly when some gate fails, and prints only that step's banner
      and outcomes, or, when every gate passes, only the last step's outcomes. */
  lemma {:induction false} ChainStopsAtFirstFailedGate(gated: seq<GatedStep>, last: Results)
    ensures var r := RunChain(gated, last);
      var k := FirstFailedGate(gated);
      && r.stepsRun == k + 1
      && (r.returnedFalse <==> exists i :: 0 <= i < |gated| && !Gate(gated[i].results))
      && (k < |gated| ==> r.lines == [gated[k].banner] + PrintOutcomes(gated[k].results))
      && (k == |gated| ==> r.lines == PrintOutcomes(last))
    decreases |gated|
  {
    if |gated| > 0 && Gate(gated[0].results) {
      ChainStopsAtFirstFailedGate(gated[1..], last);
      var r := RunChain(gated, last);
      if r.returnedFalse {
        var i :| 0 <= i < |gated[1..]| && !Gate(gated[1..][i].results);
        assert !Gate(gated[i + 1].results);
      }
      if exists i :: 0 <= i < |gated| && !Gate(gated[i].results) {
        var i :| 0 <= i < |gated| && !Gate(gated[i].results);
        assert i > 0 && !Gate(gated[1..][i - 1].results);
      }
    }
  }

  /** Step `j` (the gated steps first, then the last one) runs exactly when
      every gate before it passed. */
  lemma StepRunsIffEarlierGatesPass(gated: seq<GatedStep>, last: Results, j: nat)
    requires j <= |gated|
    ensures j < RunChain(gated, last).stepsRun <==> forall i :: 0 <= i < j ==> Gate(gated[i].results)
  {
    ChainStopsAtFirstFailedGate(gated, last);
  }

  /** Nothing after a failed gate matters: two chains that agree up to a
      failed gate behave identically, whatever their later steps would have
      returned. */
  lemma {:induction false} LaterStepsIgnored(gated: seq<GatedStep>, gated': seq<GatedStep>,
                                            last: Results, last': Results, k: nat)
    requires k < |gated| && k < |gated'|
    requires gated[..k + 1] == gated'[..k + 1]
    requires !Gate(gated[k].results)
    ensures RunChain(gated, last) == RunChain(gated', last')
    decreases k
  {
    assert gated[0] == gated'[0] by {
      assert gated[0] == gated[..k + 1][0];
    }
    if k > 0 && Gate(gated[0].results) {
      assert gated[1..][..k] == gated'[1..][..k] by {
        assert gated[1..][..k] == gated[..k + 1][1..];
        assert gated'[1..][..k] == gated'[..k + 1][1..];
      }
      assert gated[1..][k - 1] == gated[k];
      LaterStepsIgnored(gated[1..], gated'[1..], last, last', k - 1);
    }
  }

  const BundleBanner := "ERROR: Failed to make runC bundles!"
  const ConfigBanner := "ERROR: Failed to make runC config in bundles!"
  const KillBanner := "ERROR: Failed to kill runC containers!"

  /** `runc_start`: make the bundles, then write their configs, then start. */
  function RuncStart(bundle: Results, config: Results, start: Results): ChainRun
  {
    RunChain([GatedStep(BundleBanner, bundle), GatedStep(ConfigBanner, config)], start)
  }

  /** `runc_delete`: kill the containers, then delete their bundles. */
  function RuncDelete(kill: Results, delete: Results): ChainRun
  {
    RunChain([GatedStep(KillBanner, kill)], delete)
  }

  /** The config step runs only if bundle creation succeeded on every host, the
      start step only if the config step did too; the runner returns `False`
      exactly when one of those gates fails, and then prints that step's
      diagnostic and outcomes. */
  lemma RuncStartGating(bundle: Results, config: Results, start: Results)
    ensures var r := RuncStart(bundle, config, start);
      && (r.stepsRun >= 2 <==> Gate(bundle))
      && (r.stepsRun == 3 <==> Gate(bundle) && Gate(config))
      && (r.returnedFalse <==> !Gate(bundle) || !Gate(config))
      && (!Gate(bundle) ==> r.lines == [BundleBanner] + PrintOutcomes(bundle))
      && (Gate(bundle) && !Gate(config) ==> r.lines == [ConfigBanner] + PrintOutcomes(config))
      && (Gate(bundle) && Gate(config) ==> r.lines == PrintOutcomes(start))
  {
    var gated := [GatedStep(BundleBanner, bundle), GatedStep(ConfigBanner, config)];
    ChainStopsAtFirstFailedGate(gated, start);
    assert gated[1..] == [GatedStep(ConfigBanner, config)];
  }

  /** A host whose bundle step failed with a message stops `runc_start` there:
      the runner returns `False` after one step and reports that host's
      failure message on its status line. */
  lemma FailedBundleStopsStart(bundle: Results, config: Results, start: Results, h: nat, m: string)
    requires h < |bundle|
    requires bundle[h].outcome == Failed(Some(m))
    ensures var r := RuncStart(bundle, config, start);
      && r.returnedFalse
      && r.stepsRun == 1
      && r.lines[h + 1] == StatusLine(bundle[h].host, "[FAIL] - " + m)
  {
    assert !Gate(bundle);
    RuncStartGating(bundle, config, start);
    assert PrintOutcomes(bundle)[h] == StatusLine(bundle[h].host, CcMarker(bundle[h].outcome));
  }

  /** Bundle removal runs only if the kill step succeeded on every host. */
  lemma RuncDeleteGating(kill: Results, delete: Results)
    ensures var r := RuncDelete(kill, delete);
      && (r.stepsRun == 2 <==> Gate(kill))
      && (r.returnedFalse <==> !Gate(kill))
      && (!Gate(kill) ==> r.lines == [KillBanner] + PrintOutcomes(kill))
      && (Gate(kill) ==> r.lines == PrintOutcomes(delete))
  {
    ChainStopsAtFirstFailedGate([GatedStep(KillBanner, kill)], delete);
  }
}
