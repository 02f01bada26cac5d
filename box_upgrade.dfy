/** BoxUpgrade: running the upgrade inside one box (`topgrade_vagrant_box`),
    with the temporary power-up that guards it (`TemporaryPowerOn`). A box
    that was not running is powered up for the command and put back after
    it, exactly once, whatever the command's outcome. */
module BoxUpgrade {
  import opened Wrappers
  import opened Boxes
  import opened Processes

  /** The guard held while a box is temporarily powered up. While one
      exists, a restore is owed; dropping it issues the restore. */
  datatype TemporaryPowerOn = TemporaryPowerOn(box: VagrantBox, cfg: Config)

  /** The power-up the guard issues for a box that is not running. */
  function PowerUp(b: VagrantBox): (r: Invocation)
    requires !PoweredOn(b.initialStatus)
    ensures IsPowerUp(r) && !IsRestore(r) && !IsSsh(r)
  {
    PowerTransition(PowerUpSubcommand(b.initialStatus), b)
  }

  /** The restore the guard issues when dropped. */
  function Restore(b: VagrantBox, cfg: Config): (r: Invocation)
    requires !PoweredOn(b.initialStatus)
    ensures IsRestore(r) && !IsPowerUp(r) && !IsSsh(r)
  {
    PowerTransition(RestoreSubcommand(b.initialStatus, AlwaysSuspendPolicy(cfg)), b)
  }

  const EnvPrefix := "env TOPGRADE_PREFIX="
  const YesFlag := " -y"

  /** The command run inside the box: the upgrade tool itself, with the
      box's display name as the prefix of everything it prints, and the
      auto-confirm flag exactly when the step is configured to say yes. */
  function InGuestCommand(b: VagrantBox, yes: bool): (r: string)
    requires Nameable(b)
    ensures |r| > |EnvPrefix + SmartName(b)| && r[..|EnvPrefix + SmartName(b)|] == EnvPrefix + SmartName(b)
    ensures r[|EnvPrefix + SmartName(b)|..] == " topgrade" + (if yes then YesFlag else "")
    ensures (|r| >= |YesFlag| && r[|r| - |YesFlag|..] == YesFlag) <==> yes
  {
    var base := EnvPrefix + SmartName(b) + " topgrade";
    assert base[|base| - 3..] == "ade";
    if yes then base + YesFlag else base
  }

  function SshUpgrade(b: VagrantBox, cfg: Config): (r: Invocation)
    requires Nameable(b)
    ensures IsSsh(r) && !IsPowerUp(r) && !IsRestore(r)
  {
    SshCommand(b, InGuestCommand(b, cfg.yes))
  }

  /** The box is powered up for the run: it is not running and the policy
      allows powering it on. */
  predicate GuardTaken(cfg: Config, b: VagrantBox, installed: bool)
  {
    installed && !PoweredOn(b.initialStatus) && PowerOnPolicy(cfg)
  }

  /** What running the upgrade in box `b` does, when its invocations are
      answered by `reply` from the n-th one on. */
  function BoxRun(cfg: Config, b: VagrantBox, installed: bool, reply: nat -> Reply, n: nat): Run<()>
    requires Nameable(b)
  {
    if !installed then Run(Err(NotInstalled), [])
    else if PoweredOn(b.initialStatus) then
      Run(Checked(reply(n), SshUpgrade(b, cfg)), [SshUpgrade(b, cfg)])
    else if !PowerOnPolicy(cfg) then Run(Err(Skipped(b)), [])
    else if !reply(n).ok then Run(Err(Failed(PowerUp(b))), [PowerUp(b)])
    else Run(Checked(reply(n + 1), SshUpgrade(b, cfg)), [PowerUp(b), SshUpgrade(b, cfg), Restore(b, cfg)])
  }

  /** `TemporaryPowerOn::create`: power the box up; a failure is an error and
      no guard exists, so nothing is owed. */
  method PowerOnTemporarily(sh: Shell, b: VagrantBox, cfg: Config) returns (r: Result<TemporaryPowerOn>)
    requires !PoweredOn(b.initialStatus)
    modifies sh
    ensures sh.trace == old(sh.trace) + [PowerUp(b)]
    ensures r.Ok? || r.Err?
    ensures r.Ok? <==> sh.reply(|old(sh.trace)|).ok
    ensures r.Ok? ==> r.value == TemporaryPowerOn(b, cfg)
    ensures r.Err? ==> r.error == Failed(PowerUp(b))
  {
    var reply := sh.Execute(PowerUp(b));
    if !reply.ok {
      return Err(Failed(PowerUp(b)));
    }
    r := Ok(TemporaryPowerOn(b, cfg));
  }

  /** `Drop for TemporaryPowerOn`: put the box back. The outcome is ignored. */
  method DropPowerOn(sh: Shell, g: TemporaryPowerOn)
    requires !PoweredOn(g.box.initialStatus)
    modifies sh
    ensures sh.trace == old(sh.trace) + [Restore(g.box, g.cfg)]
  {
    var _ := sh.Execute(Restore(g.box, g.cfg));
  }

  /** `topgrade_vagrant_box`: run the upgrade inside box `b`. The guard, when
      one is taken, lives to the end of the method, and its drop is the last
      thing the method does on every path that holds it. */
  method TopgradeVagrantBox(sh: Shell, cfg: Config, b: VagrantBox) returns (r: Result<()>)
    requires Nameable(b)
    modifies sh
    ensures var run := BoxRun(cfg, b, sh.installed, sh.reply, |old(sh.trace)|);
            sh.trace == old(sh.trace) + run.invocations && r == run.result
  {
    if !sh.installed {
      return Err(NotInstalled);
    }
    var powerOn: Option<TemporaryPowerOn> := None;
    if !PoweredOn(b.initialStatus) {
      if !PowerOnPolicy(cfg) {
        return Err(Skipped(b));
      }
      var created := PowerOnTemporarily(sh, b, cfg);
      if created.Err? {
        return Err(created.error);
      }
      powerOn := Some(created.value);
    }
    var command := EnvPrefix + SmartName(b) + " topgrade";
    if cfg.yes {
      command := command + YesFlag;
    }
    var ssh := SshCommand(b, command);
    var reply := sh.Execute(ssh);
    r := Checked(reply, ssh);
    if powerOn.Some? {
      DropPowerOn(sh, powerOn.value);
    }
  }

  /** The guard's promise: a restore is issued exactly once when the
      power-up succeeded and never otherwise, whatever the in-guest
      command's outcome; and there is never a restore without a power-up. */
  lemma {:induction false} RestoreExactlyOnceIffPoweredUp(cfg: Config, b: VagrantBox, installed: bool, reply: nat -> Reply, n: nat)
    requires Nameable(b)
    ensures var invs := BoxRun(cfg, b, installed, reply, n).invocations;
            && Count(invs, IsPowerUp) == (if GuardTaken(cfg, b, installed) then 1 else 0)
            && Count(invs, IsRestore) == (if GuardTaken(cfg, b, installed) && reply(n).ok then 1 else 0)
  {
    var invs := BoxRun(cfg, b, installed, reply, n).invocations;
    if GuardTaken(cfg, b, installed) && reply(n).ok {
      assert invs == [PowerUp(b)] + ([SshUpgrade(b, cfg)] + [Restore(b, cfg)]);
      CountAppend([PowerUp(b)], [SshUpgrade(b, cfg)] + [Restore(b, cfg)], IsPowerUp);
      CountAppend([PowerUp(b)], [SshUpgrade(b, cfg)] + [Restore(b, cfg)], IsRestore);
      CountAppend([SshUpgrade(b, cfg)], [Restore(b, cfg)], IsPowerUp);
      CountAppend([SshUpgrade(b, cfg)], [Restore(b, cfg)], IsRestore);
    }
  }

  /** After a successful power-up the order is power-up, in-guest command,
      restore; the restore comes last, and the run's result is the in-guest
      command's outcome, not the restore's. */
  lemma {:induction false} GuardedRunOrder(cfg: Config, b: VagrantBox, installed: bool, reply: nat -> Reply, n: nat)
    requires Nameable(b)
    requires GuardTaken(cfg, b, installed) && reply(n).ok
    ensures var run := BoxRun(cfg, b, installed, reply, n);
            && |run.invocations| == 3
            && IsPowerUp(run.invocations[0]) && IsSsh(run.invocations[1]) && IsRestore(run.invocations[2])
            && (run.result.Ok? <==> reply(n + 1).ok)
            && (forall later: nat -> Reply :: (forall k :: 0 <= k <= n + 1 ==> later(k) == reply(k)) ==>
                  BoxRun(cfg, b, installed, later, n).result == run.result)
  {
  }

  /** A failed power-up is the run's error: no in-guest command and no
      restore are issued, and the box is left as it was found. */
  lemma {:induction false} PowerUpFailureStopsRun(cfg: Config, b: VagrantBox, installed: bool, reply: nat -> Reply, n: nat)
    requires Nameable(b)
    requires GuardTaken(cfg, b, installed) && !reply(n).ok
    ensures var run := BoxRun(cfg, b, installed, reply, n);
            && run.result == Err(Failed(PowerUp(b)))
            && Count(run.invocations, IsSsh) == 0
            && Count(run.invocations, IsRestore) == 0
  {
    var invs := BoxRun(cfg, b, installed, reply, n).invocations;
    assert invs == [PowerUp(b)];
    assert invs[1..] == [];
  }

  /** A box that is not running, with powering on disabled, is skipped: a
      distinct outcome that issues no invocation at all. */
  lemma {:induction false} PoweredOffBoxIsSkipped(cfg: Config, b: VagrantBox, installed: bool, reply: nat -> Reply, n: nat)
    requires Nameable(b)
    requires installed && !PoweredOn(b.initialStatus) && !PowerOnPolicy(cfg)
    ensures BoxRun(cfg, b, installed, reply, n) == Run(Err(Skipped(b)), [])
  {
  }

  /** A running box gets only the in-guest command: no power transition,
      and its result is that command's outcome. */
  lemma {:induction false} RunningBoxOnlySsh(cfg: Config, b: VagrantBox, installed: bool, reply: nat -> Reply, n: nat)
    requires Nameable(b)
    requires installed && PoweredOn(b.initialStatus)
    ensures var run := BoxRun(cfg, b, installed, reply, n);
            && run.invocations == [SshUpgrade(b, cfg)]
            && Count(run.invocations, IsPowerUp) == 0
            && Count(run.invocations, IsRestore) == 0
            && (run.result.Ok? <==> reply(n).ok)
  {
    var invs := BoxRun(cfg, b, installed, reply, n).invocations;
    assert invs[1..] == [];
  }

  /** The in-guest command is issued at most once, and only when the box is
      running or was powered up successfully. */
  lemma {:induction false} SshIffBoxUp(cfg: Config, b: VagrantBox, installed: bool, reply: nat -> Reply, n: nat)
    requires Nameable(b)
    ensures var invs := BoxRun(cfg, b, installed, reply, n).invocations;
            Count(invs, IsSsh) == (if installed && (PoweredOn(b.initialStatus) || (PowerOnPolicy(cfg) && reply(n).ok)) then 1 else 0)
  {
    var invs := BoxRun(cfg, b, installed, reply, n).invocations;
    if GuardTaken(cfg, b, installed) && reply(n).ok {
      assert invs == [PowerUp(b)] + ([SshUpgrade(b, cfg)] + [Restore(b, cfg)]);
      CountAppend([PowerUp(b)], [SshUpgrade(b, cfg)] + [Restore(b, cfg)], IsSsh);
      CountAppend([SshUpgrade(b, cfg)], [Restore(b, cfg)], IsSsh);
    } else if installed && PoweredOn(b.initialStatus) {
      assert invs[1..] == [];
    } else if GuardTaken(cfg, b, installed) {
      assert invs[1..] == [];
    }
  }
}
