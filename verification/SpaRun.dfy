/** A run of the application class from boot, and what the theorems about runs say of it. */
module SpaRun {
  import opened Bytes
  import opened Protocol
  import opened Spa
  import opened SpaApplication
  import opened SpaSafety

  /** Let one event happen to the application. */
  method Happen(app: SpaApp, e: Event) returns (actions: seq<Action>)
    requires app.Valid()
    modifies app, app.cmdTracker, app.pumpTimers, app.holdTimer
    ensures app.Valid()
    ensures var s := Perform(old(app.Model()), e); app.Model() == s.app && actions == s.actions
  {
    match e
    case FrameArrives(now, frame) =>
      ghost var sent;
      actions, sent := app.ProcessFrame(now, frame);
      assert Step(app.Model(), actions, sent) == Perform(old(app.Model()), e);
    case MqttCommand(command) =>
      ghost var a := app.Model();
      app.OnMqttCommand(command);
      assert app.Model() == a.(work := Spa.OnMqttCommand(a.work, command));
      actions := [];
    case TickElapses(now) =>
      actions := app.Tick(now);
    case PumpTimerStarts(index, minutes, now) =>
      actions := app.StartPumpTimer(index, minutes, now);
  }

  /**
   * Boot and let any events happen, in order. The application ends in the state, and has
   * taken the actions, that the theorems about runs speak of: so losses and recoveries of the
   * spa are balanced and no more than 32 commands from MQTT are queued.
   */
  method RunFromBoot(now: nat, hash: (u8, u8), previous: Option<u8>, es: seq<Event>)
    returns (app: SpaApp, actions: seq<Action>)
    ensures fresh(app) && app.Valid()
    ensures app.Model() == End(Boot(now, hash, previous), es)
    ensures actions == Actions(Boot(now, hash, previous), es)
    ensures Losses(actions) == Recoveries(actions) + if app.wasStale then 1 else 0
    ensures FromMqttCount(app.tickets.entries) <= MAX_COMMAND_QUEUE
  {
    ghost var boot := Boot(now, hash, previous);
    app := new SpaApp(now, hash, previous);
    actions := [];
    for i := 0 to |es|
      invariant fresh(app) && fresh(app.cmdTracker) && fresh(app.pumpTimers) && fresh(app.holdTimer)
      invariant app.Valid()
      invariant app.Model() == End(boot, es[..i]) && actions == Actions(boot, es[..i])
    {
      var more := Happen(app, es[i]);
      assert es[..i + 1][..i] == es[..i];
      actions := actions + more;
    }
    assert es[..|es|] == es;
    LossesMatchRecoveries(now, hash, previous, es);
    MqttQueueBounded(boot, es);
  }
}
