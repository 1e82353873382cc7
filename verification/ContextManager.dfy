/**
 The conversation windows of internal/engine/context_manager.go: each session keeps its last twenty
 turns and hands older ones over as summaries.
 */
module ContextManager {
  import opened Common
  import opened GoStrings

  const WINDOW := 20
  const SUMMARY_THRESHOLD := 10

  datatype Turn = Turn(role: string, content: string, timestamp: int)

  datatype Session = Session(turns: seq<Turn>, lastAccess: int)

  /** A call of the writer. */
  datatype Written = Written(sessionID: string, summary: string)

  function Formatted(turns: seq<Turn>): string {
    if turns == [] then ""
    else
      var t := turns[|turns| - 1];
      Formatted(turns[..|turns| - 1]) + (t.role + ": " + t.content + "\n")
  }

  /** Nothing is lost, doubled or moved: what was appended is what was handed over, then what is kept;
      and kept are the last twenty. */
  ghost predicate Conserved(appended: seq<Turn>, handed: seq<Turn>, turns: seq<Turn>) {
    appended == handed + turns && turns == LastN(appended, WINDOW)
  }

  lemma ConservedOneMore(appended: seq<Turn>, handed: seq<Turn>, turns: seq<Turn>, t: Turn)
    requires Conserved(appended, handed, turns)
    ensures
      if |turns| < WINDOW then Conserved(appended + [t], handed, turns + [t])
      else |turns| == WINDOW && Conserved(appended + [t], handed + [turns[0]], turns[1..] + [t])
  {
    LastNOneMore(appended, t, WINDOW);
    assert handed + turns + [t] == handed + (turns + [t]);
    if |turns| == WINDOW {
      assert (turns + [t])[1..] == turns[1..] + [t];
      assert handed + (turns + [t]) == (handed + [turns[0]]) + (turns[1..] + [t]);
    }
  }

  /** So the last `n` turns of a window are the last `n` of everything appended. */
  lemma RecentIsRecent(appended: seq<Turn>, handed: seq<Turn>, turns: seq<Turn>, n: nat)
    requires Conserved(appended, handed, turns) && n <= WINDOW
    ensures LastN(turns, n) == LastN(appended, n)
  {
    LastNOfLastN(appended, n, WINDOW);
  }

  /** Of a session since it was last archived: all turns appended and all turns handed over. */
  datatype History = History(appended: seq<Turn>, handed: seq<Turn>)

  /** What a session without a record has. */
  function TurnsOf(sessions: map<string, Session>, id: string): seq<Turn> {
    if id in sessions then sessions[id].turns else []
  }

  function HistoryOf(histories: map<string, History>, id: string): History {
    if id in histories then histories[id] else History([], [])
  }

  ghost predicate AllConserved(sessions: map<string, Session>, histories: map<string, History>) {
    && histories.Keys == sessions.Keys
    && forall id :: id in sessions ==> Conserved(histories[id].appended, histories[id].handed, sessions[id].turns)
  }

  lemma OneUpdated(sessions: map<string, Session>, histories: map<string, History>, id: string, s: Session, h: History)
    requires AllConserved(sessions, histories) && Conserved(h.appended, h.handed, s.turns)
    ensures AllConserved(sessions[id := s], histories[id := h])
  {
  }

  lemma OneRemoved(sessions: map<string, Session>, histories: map<string, History>, id: string)
    requires AllConserved(sessions, histories)
    ensures AllConserved(sessions - {id}, histories - {id})
  {
  }

  /** The turn that a full window gives up for a new one. */
  function Pushed(turns: seq<Turn>): seq<Turn> {
    if |turns| < WINDOW then [] else turns[..1]
  }

  /** The body of `Append`: the window after a new turn, and what it gives up. */
  method Slide(before: seq<Turn>, turn: Turn) returns (turns: seq<Turn>, toSummarize: seq<Turn>)
    requires |before| <= WINDOW
    ensures toSummarize == Pushed(before)
    ensures turns == if |before| < WINDOW then before + [turn] else before[1..] + [turn]
  {
    turns, toSummarize := before + [turn], [];
    if |turns| > WINDOW {
      var excess := |turns| - WINDOW;
      var toRemove := excess;
      if toRemove > SUMMARY_THRESHOLD {
        toRemove := SUMMARY_THRESHOLD;
      }
      toSummarize := turns[..toRemove];
      turns := turns[toRemove..];
    }
  }

  /** The sessions and histories are those of before, less idle ones; `rest` are still to be looked at. */
  ghost predicate Archived(before: map<string, Session>, past: map<string, History>, sessions: map<string, Session>,
                           histories: map<string, History>, cutoff: int, rest: set<string>) {
    && histories.Keys == sessions.Keys && past.Keys == before.Keys
    && (forall id :: id in sessions <==> id in before && (id in rest || before[id].lastAccess >= cutoff))
    && (forall id :: id in sessions ==> sessions[id] == before[id] && histories[id] == past[id])
  }

  lemma OneArchived(before: map<string, Session>, past: map<string, History>, sessions: map<string, Session>,
                    histories: map<string, History>, cutoff: int, rest: set<string>, id: string)
    requires Archived(before, past, sessions, histories, cutoff, rest)
    requires id in rest && id in sessions && sessions[id].lastAccess < cutoff
    ensures Archived(before, past, sessions - {id}, histories - {id}, cutoff, rest - {id})
    ensures |sessions - {id}| == |sessions| - 1
  {
    assert (sessions - {id}).Keys == sessions.Keys - {id};
  }

  class ContextManager {
    var sessions: map<string, Session>
    const hasWriter: bool
    /** The calls of the writer, if there is one. */
    var written: seq<Written>
    ghost var histories: map<string, History>

    ghost predicate Valid()
      reads this
    {
      AllConserved(sessions, histories)
    }

    constructor (writer: bool)
      ensures Valid() && sessions == map[] && written == [] && hasWriter == writer
    {
      hasWriter := writer;
      sessions, written, histories := map[], [], map[];
    }

    /** `Append`. Once a window is full, each turn pushes out the oldest, which is summarised alone. */
    method Append(id: string, role: string, content: string, now: int) returns (out: seq<Turn>)
      requires Valid()
      modifies this
      ensures Valid() && sessions == old(sessions)[id := Session(out, now)]
      ensures
        var h, pushed := old(HistoryOf(histories, id)), Pushed(old(TurnsOf(sessions, id)));
        && histories == old(histories)[id := History(h.appended + [Turn(role, content, now)], h.handed + pushed)]
        && written == old(written) + if pushed == [] || !hasWriter then []
                                     else [Written(id, TrimSpace(Formatted(pushed)))]
    {
      var turn := Turn(role, content, now);
      var before := TurnsOf(sessions, id);
      ghost var h := HistoryOf(histories, id);
      assert Conserved(h.appended, h.handed, before);
      var turns, toSummarize := Slide(before, turn);
      ghost var more := History(h.appended + [turn], h.handed + toSummarize);
      SlideConserves(h, before, turn, turns, more);
      OneUpdated(sessions, histories, id, Session(turns, now), more);
      sessions, histories := sessions[id := Session(turns, now)], histories[id := more];
      if toSummarize != [] && hasWriter {
        var summary := SummarizeTurns(toSummarize);
        written := written + [Written(id, summary)];
      }
      out := turns;
    }

    /** `summarizeTurns`. */
    method SummarizeTurns(turns: seq<Turn>) returns (s: string)
      ensures s == TrimSpace(Formatted(turns))
    {
      var b := "";
      for i := 0 to |turns|
        invariant b == Formatted(turns[..i])
      {
        assert turns[..i + 1][..i] == turns[..i];
        b := b + (turns[i].role + ": " + turns[i].content + "\n");
      }
      assert turns[..|turns|] == turns;
      s := TrimSpace(b);
    }

    /** `GetRecent`: the last `n` turns appended to a session since it was last archived, as far as the
        window reaches. */
    method GetRecent(id: string, n: int, now: int) returns (out: seq<Turn>)
      requires Valid()
      modifies `sessions
      ensures Valid()
      ensures out == LastN(HistoryOf(histories, id).appended, if n <= 0 || n > WINDOW then WINDOW else n)
      ensures sessions == if id in old(sessions) then old(sessions)[id := old(sessions)[id].(lastAccess := now)]
                          else old(sessions)
    {
      if id !in sessions {
        return [];
      }
      var s := sessions[id];
      OneUpdated(sessions, histories, id, s.(lastAccess := now), histories[id]);
      assert histories[id := histories[id]] == histories;
      sessions := sessions[id := s.(lastAccess := now)];
      var count := n;
      if n <= 0 || n > |s.turns| {
        count := |s.turns|;
      }
      out := s.turns[|s.turns| - count..];
      if 0 < n <= WINDOW {
        RecentIsRecent(histories[id].appended, histories[id].handed, s.turns, n);
      }
    }

    /** `ArchiveStale`: forgets the sessions last used before the cutoff. Their windows are not handed
        over. */
    method ArchiveStale(cutoff: int) returns (n: nat)
      requires Valid()
      modifies `sessions, `histories
      ensures Valid() && n == |old(sessions)| - |sessions|
      ensures forall id :: id in sessions <==> id in old(sessions) && old(sessions)[id].lastAccess >= cutoff
      ensures forall id :: id in sessions ==>
                sessions[id] == old(sessions)[id] && histories[id] == old(histories)[id]
    {
      n := 0;
      var rest := sessions.Keys;
      while rest != {}
        invariant Valid() && rest <= sessions.Keys && n == |old(sessions)| - |sessions|
        invariant Archived(old(sessions), old(histories), sessions, histories, cutoff, rest)
        decreases rest
      {
        var id :| id in rest;
        if sessions[id].lastAccess < cutoff {
          OneRemoved(sessions, histories, id);
          OneArchived(old(sessions), old(histories), sessions, histories, cutoff, rest, id);
          sessions, histories := sessions - {id}, histories - {id};
          n := n + 1;
        }
        rest := rest - {id};
      }
    }
  }

  lemma SlideConserves(h: History, before: seq<Turn>, turn: Turn, turns: seq<Turn>, more: History)
    requires Conserved(h.appended, h.handed, before)
    requires turns == if |before| < WINDOW then before + [turn] else before[1..] + [turn]
    requires more == History(h.appended + [turn], h.handed + Pushed(before))
    ensures Conserved(more.appended, more.handed, turns)
  {
    ConservedOneMore(h.appended, h.handed, before, turn);
    assert h.handed + [] == h.handed;
    assert |before| == WINDOW ==> before[..1] == [before[0]];
  }
}
