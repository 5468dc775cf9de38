/** Paging through the stored history itself, while it goes on being written, swept and reopened. */
module SessionPages {
  import opened Options
  import opened Store
  import opened HistoryLog
  import opened Sessions

  /** What the panel pages through. */
  function Shown(t: Tables, cutoff: int, limit: nat, liveId: Option<nat>, now: int): seq<Session> {
    FromRows(List(t, cutoff, limit), liveId, now)
  }

  /** The moments of a history at which a page is asked for: what had happened by then, and what was asked. */
  datatype Request = Request(done: seq<Op>, cutoff: int, limit: nat, liveId: Option<nat>, now: int)

  function Found(t: Tables, r: Request): seq<Session> {
    Shown(Run(Fresh(t), r.done).tables, r.cutoff, r.limit, r.liveId, r.now)
  }

  lemma ShownDescends(t: Tables, cutoff: int, limit: nat, liveId: Option<nat>, now: int)
    requires Ascending(t.sessions)
    ensures Descending(Shown(t, cutoff, limit, liveId, now))
  {
    ListIsNewest(t, cutoff, limit);
    hide List, Describe;
    var rows := List(t, cutoff, limit);
    assert NewestFirst(rows);
    assert forall i :: 0 <= i < |rows| ==> FromRows(rows, liveId, now)[i].id == rows[i].row.id;
  }

  /** Whatever a history did, what it shows has its ids strictly descending. */
  lemma FoundDescends(t: Tables, r: Request)
    requires Sound(t)
    ensures Descending(Found(t, r))
  {
    RunInv(0, t, r.done);
    assert Ascending(Run(Fresh(t), r.done).tables.sessions);
    hide Run, Inv, Shown, Sound;
    ShownDescends(Run(Fresh(t), r.done).tables, r.cutoff, r.limit, r.liveId, r.now);
  }

  /** Pages of one moment of a history, put together, are all it shows at that moment: once each, in order. */
  lemma PagesOfOneMoment(t: Tables, r: Request, limit: int)
    requires Sound(t)
    ensures Walk((i: nat) => Found(t, r), 0, None, limit) == Found(t, r)
  {
    FoundDescends(t, r);
    PagesAreTheList(Found(t, r), limit);
  }

  /**
   Pages asked for at different moments of one history, with lines, attempts, sweeps and restarts in between: no
   session is shown twice, and one that is there at every request is shown.
   */
  lemma PagesOfALivingHistory(t: Tables, requests: nat -> Request, limit: int, id: nat)
    requires Sound(t)
    ensures var walk := Walk((i: nat) => Found(t, requests(i)), 0, None, limit);
            && Descending(walk)
            && ((forall j: nat :: Shows(Found(t, requests(j)), id)) ==> Shows(walk, id))
  {
    var snap := (i: nat) => Found(t, requests(i));
    forall j: nat
      ensures Descending(snap(j))
    {
      FoundDescends(t, requests(j));
    }
    hide Found, Descending, Shows, Walk, Sound;
    WalkDescends(snap, 0, None, limit);
    if forall j: nat :: Shows(Found(t, requests(j)), id) {
      forall j: nat
        ensures Shows(snap(j), id)
      {
        assert Shows(Found(t, requests(j)), id);
      }
      SurvivorsAreShown(snap, 0, None, limit, id);
    }
  }
}
