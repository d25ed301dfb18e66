/** `TerminalService`: the table of pseudo-terminal sessions, one per
    socket. A pseudo-terminal is an external process known here by an
    identity; whether resizing or killing a given one throws is decided by
    functions fixed when the service is created, so every outcome is
    covered. What is written to a terminal, and every kill attempted, is
    recorded. */
module TerminalSessions {
  import opened Wrappers

  /** A stored session: its socket, its pseudo-terminal and its size. */
  datatype Session = Session(socketId: string, pty: nat, cols: int, rows: int)

  const DefaultCols := 80
  const DefaultRows := 30

  class TerminalService {
    var sessions: map<string, Session>
    /** The identity the next spawned pseudo-terminal gets. */
    var nextPty: nat
    /** Everything written, as (pseudo-terminal, data), oldest first. */
    var writes: seq<(nat, string)>
    /** Every pseudo-terminal a kill was attempted on, oldest first. */
    var kills: seq<nat>
    const resizeThrows: (nat, int, int) -> bool
    const killThrows: nat -> bool

    /** Each session is stored under its own socket, its pseudo-terminal
        has been spawned, and no two sessions share one. */
    ghost predicate Valid()
      reads this
    {
      && (forall id :: id in sessions ==> sessions[id].socketId == id && sessions[id].pty < nextPty)
      && (forall a, b :: a in sessions && b in sessions && a != b ==> sessions[a].pty != sessions[b].pty)
    }

    constructor(resizeThrows: (nat, int, int) -> bool, killThrows: nat -> bool)
      ensures Valid()
      ensures sessions == map[] && writes == [] && kills == []
      ensures this.resizeThrows == resizeThrows && this.killThrows == killThrows
    {
      sessions := map[];
      nextPty := 0;
      writes := [];
      kills := [];
      this.resizeThrows := resizeThrows;
      this.killThrows := killThrows;
    }

    /** `getSession(socketId)`. */
    function GetSession(socketId: string): (s: Option<Session>)
      reads this
      ensures s.Some? <==> socketId in sessions
      ensures s.Some? ==> s.value == sessions[socketId]
    {
      if socketId in sessions then Some(sessions[socketId]) else None
    }

    /** `getSessionCount()`. */
    function GetSessionCount(): (n: nat)
      reads this
      ensures n == |sessions.Keys|
    {
      |sessions|
    }

    /** `createSession(socketId, cols = 80, rows = 30)`: a new
        pseudo-terminal of that size, stored under the socket and replacing
        any session already there. */
    method CreateSession(socketId: string, cols: Option<int>, rows: Option<int>) returns (s: Session)
      requires Valid()
      modifies this
      ensures Valid()
      ensures s == Session(socketId, old(nextPty), cols.GetOr(DefaultCols), rows.GetOr(DefaultRows))
      ensures sessions == old(sessions)[socketId := s]
      ensures writes == old(writes) && kills == old(kills)
      ensures socketId in old(sessions) ==> GetSessionCount() == old(GetSessionCount())
      ensures socketId !in old(sessions) ==> GetSessionCount() == old(GetSessionCount()) + 1
    {
      s := Session(socketId, nextPty, cols.GetOr(DefaultCols), rows.GetOr(DefaultRows));
      sessions := sessions[socketId := s];
      nextPty := nextPty + 1;
    }

    /** `writeToSession(socketId, data)`: the data goes to the socket's
        terminal if it has one. */
    method WriteToSession(socketId: string, data: string) returns (ok: bool)
      requires Valid()
      modifies this
      ensures Valid()
      ensures ok <==> socketId in old(sessions)
      ensures sessions == old(sessions) && kills == old(kills) && nextPty == old(nextPty)
      ensures ok ==> writes == old(writes) + [(sessions[socketId].pty, data)]
      ensures !ok ==> writes == old(writes)
    {
      if socketId !in sessions {
        return false;
      }
      writes := writes + [(sessions[socketId].pty, data)];
      ok := true;
    }

    /** `resizeSession(socketId, cols, rows)`: the stored size changes
        only when the terminal accepted the new one. */
    method ResizeSession(socketId: string, cols: int, rows: int) returns (ok: bool)
      requires Valid()
      modifies this
      ensures Valid()
      ensures ok <==> socketId in old(sessions) && !resizeThrows(old(sessions)[socketId].pty, cols, rows)
      ensures ok ==> sessions == old(sessions)[socketId := old(sessions)[socketId].(cols := cols, rows := rows)]
      ensures !ok ==> sessions == old(sessions)
      ensures writes == old(writes) && kills == old(kills) && nextPty == old(nextPty)
    {
      if socketId !in sessions {
        return false;
      }
      var s := sessions[socketId];
      if resizeThrows(s.pty, cols, rows) {
        return false;
      }
      sessions := sessions[socketId := s.(cols := cols, rows := rows)];
      ok := true;
    }

    /** `killSession(socketId)`: the entry is removed only when the
        terminal was killed; a kill that throws keeps it. */
    method KillSession(socketId: string) returns (ok: bool)
      requires Valid()
      modifies this
      ensures Valid()
      ensures ok <==> socketId in old(sessions) && !killThrows(old(sessions)[socketId].pty)
      ensures socketId in old(sessions) ==> kills == old(kills) + [old(sessions)[socketId].pty]
      ensures socketId !in old(sessions) ==> kills == old(kills)
      ensures ok ==> sessions == old(sessions) - {socketId} && GetSessionCount() == old(GetSessionCount()) - 1
      ensures !ok ==> sessions == old(sessions)
      ensures writes == old(writes) && nextPty == old(nextPty)
    {
      if socketId !in sessions {
        return false;
      }
      var s := sessions[socketId];
      kills := kills + [s.pty];
      if killThrows(s.pty) {
        return false;
      }
      sessions := sessions - {socketId};
      ok := true;
    }

    /** `killAllSessions()`: a kill is attempted on every terminal, each
        exactly once, errors are ignored, and the table is emptied. */
    method KillAllSessions()
      requires Valid()
      modifies this
      ensures Valid()
      ensures sessions == map[] && GetSessionCount() == 0
      ensures |kills| == |old(kills)| + |old(sessions).Keys|
      ensures kills[..|old(kills)|] == old(kills)
      ensures forall id :: id in old(sessions) ==> old(sessions)[id].pty in kills[|old(kills)|..]
      ensures writes == old(writes) && nextPty == old(nextPty)
    {
      var attempted := KillAttempts(sessions);
      var before := kills;
      kills := kills + attempted;
      assert kills[..|before|] == before && kills[|before|..] == attempted;
      sessions := map[];
    }
  }

  /** The `forEach` of `killAllSessions`: one kill per session, in some
      order of the table. */
  method KillAttempts(table: map<string, Session>) returns (attempted: seq<nat>)
    ensures |attempted| == |table.Keys|
    ensures forall id :: id in table ==> table[id].pty in attempted
  {
    var remaining := table.Keys;
    attempted := [];
    ghost var done: set<string> := {};
    while remaining != {}
      invariant remaining !! done && remaining + done == table.Keys
      invariant |attempted| == |done|
      invariant forall id :: id in done ==> table[id].pty in attempted
      decreases |remaining|
    {
      var id :| id in remaining;
      assert id !in done;
      attempted := attempted + [table[id].pty];
      remaining := remaining - {id};
      done := done + {id};
    }
    assert done == table.Keys;
  }

  /** Session counts along a run on a fresh service: a session for a new
      socket adds one, a second session for the same socket replaces the
      first, and killing everything leaves none, whichever kills throw. */
  method CountScenario(resizeThrows: (nat, int, int) -> bool, killThrows: nat -> bool)
    returns (counts: seq<nat>)
    ensures counts == [1, 2, 2, 0]
  {
    var t := new TerminalService(resizeThrows, killThrows);
    var a := t.CreateSession("a", None, None);
    var c1 := t.GetSessionCount();
    var b := t.CreateSession("b", Some(120), Some(40));
    var c2 := t.GetSessionCount();
    var again := t.CreateSession("b", None, None);
    var c3 := t.GetSessionCount();
    t.KillAllSessions();
    var c4 := t.GetSessionCount();
    counts := [c1, c2, c3, c4];
  }
}
