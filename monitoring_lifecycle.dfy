/** The lazy start and stop of system monitoring on the server.
    `SystemCollectorService` counts subscribers and runs three polling
    intervals while it has any; the newer `SystemGateway` subscribes each
    socket to the collector and keeps its subscriptions per socket; the
    older `SystemGateway` counts sockets itself and runs one interval.
    Timers are modelled by identities: an installed interval is an entry of
    `timers`, and `clearInterval` removes it. Fetches run asynchronously, so
    starting one is recorded in `requested` and its completion is a
    separate call carrying the outcome. */
module MonitoringLifecycle {
  import opened Wrappers
  import Current = SystemMonitorService
  import LinuxParser

  datatype FetchKind = StatsFetch | ProcessesFetch | StorageFetch

  /** An installed `setInterval`: what it fetches, and how often. */
  datatype Interval = Interval(kind: FetchKind, periodMs: nat)

  const StatsPeriodMs := 2000
  const ProcessesPeriodMs := 5000
  const StoragePeriodMs := 60000

  /** `Math.max(a, b)`. */
  function Max(a: int, b: int): (m: int)
    ensures m >= a && m >= b && (m == a || m == b)
  {
    if a >= b then a else b
  }

  class SystemCollectorService {
    var subscribers: int
    var statsInterval: Option<nat>
    var processesInterval: Option<nat>
    var storageInterval: Option<nat>
    /** The intervals currently installed, by timer identity. */
    var timers: map<nat, Interval>
    var nextTimer: nat
    /** Every fetch started, oldest first. */
    var requested: seq<FetchKind>
    /** The last values published (`null`, `[]` and `null` until then). */
    var stats: Option<Current.SystemStats>
    var processes: seq<LinuxParser.ProcessInfo>
    var storage: Option<LinuxParser.Storage>
    /** Whether `onModuleDestroy` has run. */
    ghost var destroyed: bool

    predicate Monitoring()
      reads this
    {
      statsInterval.Some?
    }

    /** The three interval fields are set together and name exactly the
        installed timers, with their periods: no timer is ever left behind
        by a field being overwritten. */
    ghost predicate TimersValid()
      reads this
    {
      && (statsInterval.Some? <==> processesInterval.Some?)
      && (processesInterval.Some? <==> storageInterval.Some?)
      && (Monitoring() ==>
            && statsInterval.value < nextTimer && processesInterval.value < nextTimer && storageInterval.value < nextTimer
            && statsInterval.value != processesInterval.value && statsInterval.value != storageInterval.value
            && processesInterval.value != storageInterval.value
            && timers == map[statsInterval.value := Interval(StatsFetch, StatsPeriodMs),
                             processesInterval.value := Interval(ProcessesFetch, ProcessesPeriodMs),
                             storageInterval.value := Interval(StorageFetch, StoragePeriodMs)])
      && (!Monitoring() ==> timers == map[])
    }

    /** The timers are consistent; monitoring runs only while someone is
        subscribed and, until the module is destroyed, whenever someone
        is. */
    ghost predicate Valid()
      reads this
    {
      && subscribers >= 0
      && TimersValid()
      && (Monitoring() ==> subscribers > 0)
      && (!destroyed ==> (Monitoring() <==> subscribers > 0))
    }

    constructor()
      ensures Valid() && !destroyed
      ensures subscribers == 0 && !Monitoring() && timers == map[] && requested == []
      ensures stats == None && processes == [] && storage == None
    {
      subscribers := 0;
      statsInterval := None;
      processesInterval := None;
      storageInterval := None;
      timers := map[];
      nextTimer := 0;
      requested := [];
      stats := None;
      processes := [];
      storage := None;
      destroyed := false;
    }

    /** `subscribe()`: one more subscriber; the first one starts
        monitoring. */
    method Subscribe()
      requires Valid()
      modifies this
      ensures Valid() && destroyed == old(destroyed)
      ensures subscribers == old(subscribers) + 1
      ensures old(subscribers) == 0 ==>
        && Monitoring() && |timers| == 3
        && requested == old(requested) + [StatsFetch, ProcessesFetch, StorageFetch]
      ensures old(subscribers) != 0 ==>
        && timers == old(timers) && requested == old(requested) && Monitoring() == old(Monitoring())
      ensures stats == old(stats) && processes == old(processes) && storage == old(storage)
    {
      subscribers := subscribers + 1;
      if subscribers == 1 {
        StartMonitoring();
      }
    }

    /** `unsubscribe()`: one subscriber fewer, never below zero; when none
        is left, monitoring stops (again, if it already had). */
    method Unsubscribe()
      requires Valid()
      modifies this
      ensures Valid() && destroyed == old(destroyed)
      ensures subscribers == Max(0, old(subscribers) - 1)
      ensures subscribers == 0 ==> !Monitoring() && timers == map[]
      ensures subscribers != 0 ==> timers == old(timers) && Monitoring() == old(Monitoring())
      ensures requested == old(requested)
      ensures stats == old(stats) && processes == old(processes) && storage == old(storage)
    {
      subscribers := Max(0, subscribers - 1);
      if subscribers == 0 {
        StopMonitoring();
      }
    }

    /** `startMonitoring()`, reached only from `subscribe` when nothing is
        running: one fetch of each kind, then the three intervals. */
    method StartMonitoring()
      requires TimersValid() && !Monitoring()
      modifies this
      ensures TimersValid() && Monitoring() && destroyed == old(destroyed) && subscribers == old(subscribers)
      ensures requested == old(requested) + [StatsFetch, ProcessesFetch, StorageFetch]
      ensures |timers| == 3
      ensures stats == old(stats) && processes == old(processes) && storage == old(storage)
    {
      requested := requested + [StatsFetch, ProcessesFetch, StorageFetch];
      statsInterval := Some(nextTimer);
      processesInterval := Some(nextTimer + 1);
      storageInterval := Some(nextTimer + 2);
      timers := map[nextTimer := Interval(StatsFetch, StatsPeriodMs),
                    nextTimer + 1 := Interval(ProcessesFetch, ProcessesPeriodMs),
                    nextTimer + 2 := Interval(StorageFetch, StoragePeriodMs)];
      nextTimer := nextTimer + 3;
    }

    /** `stopMonitoring()`: each interval that is set is cleared and
        forgotten; with nothing set it does nothing. */
    method StopMonitoring()
      requires TimersValid()
      modifies this
      ensures TimersValid() && !Monitoring() && timers == map[]
      ensures !old(Monitoring()) ==> statsInterval == old(statsInterval) && nextTimer == old(nextTimer)
      ensures subscribers == old(subscribers) && destroyed == old(destroyed) && requested == old(requested)
      ensures stats == old(stats) && processes == old(processes) && storage == old(storage)
    {
      if statsInterval.Some? {
        timers := timers - {statsInterval.value};
        statsInterval := None;
      }
      if processesInterval.Some? {
        timers := timers - {processesInterval.value};
        processesInterval := None;
      }
      if storageInterval.Some? {
        timers := timers - {storageInterval.value};
        storageInterval := None;
      }
    }

    /** `onModuleDestroy()`: monitoring stops whatever the count. */
    method OnModuleDestroy()
      requires Valid()
      modifies this
      ensures Valid() && destroyed
      ensures !Monitoring() && timers == map[] && subscribers == old(subscribers)
    {
      destroyed := true;
      StopMonitoring();
    }

    /** The end of `fetchStats()`: a result is published, a failure leaves
        the last published value. */
    method CompleteStatsFetch(result: Result<Current.SystemStats, string>)
      modifies this
      ensures result.Ok? ==> stats == Some(result.value)
      ensures result.Err? ==> stats == old(stats)
      ensures processes == old(processes) && storage == old(storage)
      ensures subscribers == old(subscribers) && timers == old(timers) && requested == old(requested)
      ensures statsInterval == old(statsInterval) && processesInterval == old(processesInterval)
      ensures storageInterval == old(storageInterval) && nextTimer == old(nextTimer) && destroyed == old(destroyed)
    {
      if result.Ok? {
        stats := Some(result.value);
      }
    }

    /** The end of `fetchProcesses()`. */
    method CompleteProcessesFetch(result: Result<seq<LinuxParser.ProcessInfo>, string>)
      modifies this
      ensures result.Ok? ==> processes == result.value
      ensures result.Err? ==> processes == old(processes)
      ensures stats == old(stats) && storage == old(storage)
      ensures subscribers == old(subscribers) && timers == old(timers) && requested == old(requested)
      ensures statsInterval == old(statsInterval) && processesInterval == old(processesInterval)
      ensures storageInterval == old(storageInterval) && nextTimer == old(nextTimer) && destroyed == old(destroyed)
    {
      if result.Ok? {
        processes := result.value;
      }
    }

    /** The end of `fetchStorage()`. */
    method CompleteStorageFetch(result: Result<LinuxParser.Storage, string>)
      modifies this
      ensures result.Ok? ==> storage == Some(result.value)
      ensures result.Err? ==> storage == old(storage)
      ensures stats == old(stats) && processes == old(processes)
      ensures subscribers == old(subscribers) && timers == old(timers) && requested == old(requested)
      ensures statsInterval == old(statsInterval) && processesInterval == old(processesInterval)
      ensures storageInterval == old(storageInterval) && nextTimer == old(nextTimer) && destroyed == old(destroyed)
    {
      if result.Ok? {
        storage := Some(result.value);
      }
    }

    /** `triggerProcessRefresh()`: one more process fetch (after a short
        pause that is not modelled). */
    method TriggerProcessRefresh()
      modifies this
      ensures requested == old(requested) + [ProcessesFetch]
      ensures stats == old(stats) && processes == old(processes) && storage == old(storage)
      ensures subscribers == old(subscribers) && timers == old(timers)
      ensures statsInterval == old(statsInterval) && processesInterval == old(processesInterval)
      ensures storageInterval == old(storageInterval) && nextTimer == old(nextTimer) && destroyed == old(destroyed)
    {
      requested := requested + [ProcessesFetch];
    }
  }

  /** A run of the collector: two subscribers, both leave, and a third
      unsubscribe at zero keeps the count at zero; a later subscriber
      starts monitoring again. */
  method CollectorScenario() returns (counts: seq<int>, running: seq<bool>)
    ensures counts == [1, 2, 1, 0, 0, 1]
    ensures running == [true, true, true, false, false, true]
  {
    var c := new SystemCollectorService();
    c.Subscribe();
    var count1, running1 := c.subscribers, c.Monitoring();
    assert count1 == 1;
    c.Subscribe();
    var count2, running2 := c.subscribers, c.Monitoring();
    assert count2 == 2;
    c.Unsubscribe();
    var count3, running3 := c.subscribers, c.Monitoring();
    assert count3 == 1;
    c.Unsubscribe();
    var count4, running4 := c.subscribers, c.Monitoring();
    assert count4 == 0;
    c.Unsubscribe();
    var count5, running5 := c.subscribers, c.Monitoring();
    assert count5 == 0;
    c.Subscribe();
    var count6, running6 := c.subscribers, c.Monitoring();
    assert count6 == 1;
    counts := [count1, count2, count3, count4, count5, count6];
    running := [running1, running2, running3, running4, running5, running6];
  }

  // ---------------------------------------------------------------------
  // The newer SystemGateway: per-socket subscriptions to the collector

  datatype Channel = SystemStatsChannel | SystemProcessesChannel | SystemStorageChannel

  /** An rxjs subscription feeding one socket event. */
  datatype Subscription = Subscription(id: nat, channel: Channel)

  class SystemGateway {
    const collector: SystemCollectorService
    var subscriptions: map<string, seq<Subscription>>
    var nextSubscription: nat
    /** Every subscription ended, oldest first. */
    var ended: seq<Subscription>

    ghost predicate Valid()
      reads this, collector
    {
      && collector.Valid()
      && forall id :: id in subscriptions ==> |subscriptions[id]| == 3
    }

    constructor(collector: SystemCollectorService)
      requires collector.Valid()
      ensures Valid() && this.collector == collector
      ensures subscriptions == map[] && ended == []
    {
      this.collector := collector;
      subscriptions := map[];
      nextSubscription := 0;
      ended := [];
    }

    /** `handleConnection(client)`: one collector subscription, and the
        socket's three subscriptions stored under its id, replacing any
        entry already there. */
    method HandleConnection(clientId: string)
      requires Valid()
      modifies this, collector
      ensures Valid()
      ensures collector.subscribers == old(collector.subscribers) + 1
      ensures collector.destroyed == old(collector.destroyed)
      ensures subscriptions.Keys == old(subscriptions.Keys) + {clientId}
      ensures forall id :: id in old(subscriptions) && id != clientId ==> subscriptions[id] == old(subscriptions[id])
      ensures [subscriptions[clientId][0].channel, subscriptions[clientId][1].channel, subscriptions[clientId][2].channel]
        == [SystemStatsChannel, SystemProcessesChannel, SystemStorageChannel]
      ensures ended == old(ended)
    {
      collector.Subscribe();
      var n := nextSubscription;
      var clientSubs := [Subscription(n, SystemStatsChannel), Subscription(n + 1, SystemProcessesChannel),
                         Subscription(n + 2, SystemStorageChannel)];
      nextSubscription := n + 3;
      subscriptions := subscriptions[clientId := clientSubs];
    }

    /** `handleDisconnect(client)`: the socket's stored subscriptions, if
        any, are ended and the entry removed; the collector is told once
        either way. */
    method HandleDisconnect(clientId: string)
      requires Valid()
      modifies this, collector
      ensures Valid()
      ensures collector.subscribers == Max(0, old(collector.subscribers) - 1)
      ensures collector.destroyed == old(collector.destroyed)
      ensures subscriptions == old(subscriptions) - {clientId}
      ensures clientId in old(subscriptions) ==> ended == old(ended) + old(subscriptions[clientId])
      ensures clientId !in old(subscriptions) ==> ended == old(ended)
    {
      if clientId in subscriptions {
        var clientSubs := subscriptions[clientId];
        var i := 0;
        while i < |clientSubs|
          invariant i <= |clientSubs|
          invariant ended == old(ended) + clientSubs[..i]
          invariant subscriptions == old(subscriptions)
          modifies this
        {
          ended := ended + [clientSubs[i]];
          i := i + 1;
        }
        assert clientSubs[..i] == clientSubs;
        subscriptions := subscriptions - {clientId};
      }
      collector.Unsubscribe();
    }
  }

  /** A socket that connects twice under the same id and disconnects once
      leaves one collector subscription behind, so monitoring keeps
      running although no socket is stored. */
  method ReconnectScenario() returns (stored: nat, subscribers: int, running: bool)
    ensures stored == 0 && subscribers == 1 && running
  {
    var c := new SystemCollectorService();
    var g := new SystemGateway(c);
    g.HandleConnection("a");
    g.HandleConnection("a");
    g.HandleDisconnect("a");
    stored, subscribers, running := |g.subscriptions.Keys|, c.subscribers, c.Monitoring();
  }

  // ---------------------------------------------------------------------
  // The older SystemGateway: a socket counter and one interval

  class LegacySystemGateway {
    var connectedClients: int
    var monitoringInterval: Option<nat>
    var timers: map<nat, Interval>
    var nextTimer: nat
    /** How many stats emissions were started. */
    var emits: nat
    ghost var destroyed: bool

    /** The interval field names exactly the installed timer. */
    ghost predicate TimersValid()
      reads this
    {
      && (monitoringInterval.Some? ==>
            monitoringInterval.value < nextTimer
            && timers == map[monitoringInterval.value := Interval(StatsFetch, StatsPeriodMs)])
      && (monitoringInterval.None? ==> timers == map[])
    }

    /** Monitoring runs exactly while the count is positive (until the
        module is destroyed); the count itself has no floor. */
    ghost predicate Valid()
      reads this
    {
      && TimersValid()
      && (monitoringInterval.Some? ==> connectedClients > 0)
      && (!destroyed ==> (monitoringInterval.Some? <==> connectedClients > 0))
    }

    constructor()
      ensures Valid() && !destroyed && connectedClients == 0 && monitoringInterval == None && emits == 0
    {
      connectedClients := 0;
      monitoringInterval := None;
      timers := map[];
      nextTimer := 0;
      emits := 0;
      destroyed := false;
    }

    /** `handleConnection`: the count goes up; reaching exactly 1 starts
        monitoring with one immediate emission. */
    method HandleConnection()
      requires Valid()
      modifies this
      ensures Valid() && destroyed == old(destroyed)
      ensures connectedClients == old(connectedClients) + 1
      ensures connectedClients == 1 ==> monitoringInterval.Some? && emits == old(emits) + 1
      ensures connectedClients != 1 ==> monitoringInterval == old(monitoringInterval) && emits == old(emits)
    {
      connectedClients := connectedClients + 1;
      if connectedClients == 1 {
        emits := emits + 1;
        monitoringInterval := Some(nextTimer);
        timers := map[nextTimer := Interval(StatsFetch, StatsPeriodMs)];
        nextTimer := nextTimer + 1;
      }
    }

    /** `handleDisconnect`: the count goes down with no floor; reaching
        exactly 0 stops monitoring. */
    method HandleDisconnect()
      requires Valid()
      modifies this
      ensures Valid() && destroyed == old(destroyed)
      ensures connectedClients == old(connectedClients) - 1
      ensures connectedClients == 0 ==> monitoringInterval.None? && timers == map[]
      ensures connectedClients != 0 ==> monitoringInterval == old(monitoringInterval)
      ensures emits == old(emits)
    {
      connectedClients := connectedClients - 1;
      if connectedClients == 0 {
        StopMonitoring();
      }
    }

    /** `stopMonitoring()`: clears the interval if there is one; calling it
        again does nothing. */
    method StopMonitoring()
      requires TimersValid()
      modifies this
      ensures TimersValid() && monitoringInterval.None? && timers == map[]
      ensures connectedClients == old(connectedClients) && destroyed == old(destroyed) && emits == old(emits)
      ensures old(monitoringInterval).None? ==> nextTimer == old(nextTimer)
    {
      if monitoringInterval.Some? {
        timers := map[];
        monitoringInterval := None;
      }
    }

    /** `onModuleDestroy()`. */
    method OnModuleDestroy()
      requires Valid()
      modifies this
      ensures Valid() && destroyed && monitoringInterval.None? && connectedClients == old(connectedClients)
    {
      destroyed := true;
      StopMonitoring();
    }
  }

  /** Without a floor, a disconnect that was never matched by a connect
      drives the count to -1; the next connection only brings it to 0, so
      that socket gets no monitoring until a second one connects. */
  method UnmatchedDisconnectScenario() returns (counts: seq<int>, running: seq<bool>)
    ensures counts == [-1, 0, 1]
    ensures running == [false, false, true]
  {
    var g := new LegacySystemGateway();
    g.HandleDisconnect();
    counts, running := [g.connectedClients], [g.monitoringInterval.Some?];
    g.HandleConnection();
    counts, running := counts + [g.connectedClients], running + [g.monitoringInterval.Some?];
    g.HandleConnection();
    counts, running := counts + [g.connectedClients], running + [g.monitoringInterval.Some?];
  }
}
