/**
  The ticket lifecycle as the screens drive it (app_v6_deploy.py): which
  status update each button sends, on which rows the button is offered, and
  what the update does to a ticket. The only edges are Open to Active (a
  claim), Active to Pending (a report), Pending to Done (approval) and
  Pending back to Active (rejection); nothing reopens a ticket.
 */
module Lifecycle {
  import opened Wrappers
  import opened Text
  import opened Quests
  import Normalize
  import QuestSheet
  import Grid

  /** The arguments of one `update_quest_status` call. */
  datatype StatusCall = StatusCall(newStatus: string, hunterId: Option<string>, partnerList: Option<seq<string>>)

  /** The buttons that change a ticket's status. */
  datatype Action =
    | ClaimProject(me: string, partners: seq<string>)  // "投標" on a project ticket
    | ClaimMaint(me: string)                           // "我來處理" on a maintenance ticket
    | Report(me: string)                               // "完工回報" on the claimant's own ticket
    | Approve                                          // "通過" on the review list
    | Reject                                           // "退回" on the review list

  /** The status update each button sends. */
  function CallOf(a: Action): (c: StatusCall)
    ensures c.newStatus in {"Active", "Pending", "Done"}
    ensures c.hunterId.Some? <==> (a.ClaimProject? || a.ClaimMaint?)
    ensures c.partnerList.Some? <==> (a.ClaimProject? || a.ClaimMaint?)
  {
    match a
    case ClaimProject(me, partners) => StatusCall("Active", Some(me), Some(partners))
    case ClaimMaint(me) => StatusCall("Active", Some(me), Some([]))
    case Report(_) => StatusCall("Pending", None, None)
    case Approve => StatusCall("Done", None, None)
    case Reject => StatusCall("Active", None, None)
  }

  /**
    Whether the screen offers the button on the ticket. Claims are listed
    only on `Open` tickets of their category group and disabled while the
    viewer is busy; the teammate picker lists other users only, each once, at
    most three. A report is offered only to the claimant of an `Active`
    ticket, approval and rejection only on `Pending` tickets. `busy` is the
    viewer's `is_me_busy` on the table the screen shows.
   */
  predicate Offered(a: Action, t: Ticket, busy: bool)
    ensures Offered(a, t, busy) && (a.ClaimProject? || a.ClaimMaint?) ==> t.status == "Open" && !busy
    ensures Offered(a, t, busy) ==> t.status in {"Open", "Active", "Pending"}
  {
    match a
    case ClaimProject(me, partners) =>
      t.status == "Open" && t.rank in Normalize.TypeEng && !busy &&
      me !in partners && Distinct(partners) && |partners| <= 3
    case ClaimMaint(me) => t.status == "Open" && t.rank in Normalize.TypeMaint && !busy
    case Report(me) => t.status == "Active" && t.hunterId == me
    case Approve => t.status == "Pending"
    case Reject => t.status == "Pending"
  }

  /**
    What one status update does to the ticket of its row: the new status,
    the claimant when one is given, the joined teammates when a list is given
    or an empty teammate cell when the ticket is set `Open`; every other field
    keeps its value.
   */
  function ApplyToTicket(t: Ticket, c: StatusCall): (r: Ticket)
    ensures r.id == t.id && r.title == t.title && r.quoteNo == t.quoteNo && r.description == t.description
    ensures r.rank == t.rank && r.points == t.points && r.createdAt == t.createdAt
  {
    t.(status := c.newStatus,
       hunterId := if c.hunterId.Some? then c.hunterId.value else t.hunterId,
       partnerId := match QuestSheet.PartnerText(c.newStatus, c.partnerList)
                    case Some(p) => p
                    case None => t.partnerId)
  }

  /**
    The sheet's batch and the ticket update agree: on a row whose status,
    claimant and teammate cells hold a ticket's fields, the cells after the
    batch of a status call hold the fields of the updated ticket.
   */
  lemma BatchMatchesTicket(rows: Grid.Rows, h: map<string, int>, row: int, t: Ticket, c: StatusCall)
    requires row >= 1 && QuestSheet.DistinctColumns(h) && forall k :: k in h ==> h[k] >= 1
    requires "status" in h && "hunter_id" in h && "partner_id" in h
    requires Grid.Cell(rows, row, h["status"]) == t.status
    requires Grid.Cell(rows, row, h["hunter_id"]) == t.hunterId
    requires Grid.Cell(rows, row, h["partner_id"]) == t.partnerId
    ensures QuestSheet.StatusWrites(h, c.newStatus, c.hunterId, c.partnerList).Some?
    ensures var g := Grid.ApplyWrites(rows, row, QuestSheet.StatusWrites(h, c.newStatus, c.hunterId, c.partnerList).value);
            var u := ApplyToTicket(t, c);
            Grid.Cell(g, row, h["status"]) == u.status &&
            Grid.Cell(g, row, h["hunter_id"]) == u.hunterId &&
            Grid.Cell(g, row, h["partner_id"]) == u.partnerId
  {
    QuestSheet.StatusBatchEffect(rows, h, row, c.newStatus, c.hunterId, c.partnerList, row, h["status"]);
    QuestSheet.StatusBatchEffect(rows, h, row, c.newStatus, c.hunterId, c.partnerList, row, h["hunter_id"]);
    QuestSheet.StatusBatchEffect(rows, h, row, c.newStatus, c.hunterId, c.partnerList, row, h["partner_id"]);
  }

  /** The status edges the screens can take. */
  predicate Edge(from: string, to: string)
  {
    (from == "Open" && to == "Active") || (from == "Active" && to == "Pending") ||
    (from == "Pending" && to == "Done") || (from == "Pending" && to == "Active")
  }

  /** Every offered button moves its ticket along an edge, and never back to `Open`. */
  lemma OfferedMovesAlongEdge(a: Action, t: Ticket, busy: bool)
    requires Offered(a, t, busy)
    ensures Edge(t.status, ApplyToTicket(t, CallOf(a)).status)
    ensures ApplyToTicket(t, CallOf(a)).status != "Open"
  {
  }

  /** Each edge is taken by some button offered on a ticket of the right status. */
  lemma EveryEdgeIsOffered(t: Ticket, to: string)
    requires Edge(t.status, to)
    requires t.status == "Open" ==> t.rank in Normalize.AllTypes
    ensures exists a :: Offered(a, t, false) && ApplyToTicket(t, CallOf(a)).status == to
  {
    if t.status == "Open" {
      if t.rank in Normalize.TypeEng {
        assert Offered(ClaimProject("", []), t, false);
        assert ApplyToTicket(t, CallOf(ClaimProject("", []))).status == to;
      } else {
        assert Offered(ClaimMaint(""), t, false);
        assert ApplyToTicket(t, CallOf(ClaimMaint(""))).status == to;
      }
    } else if t.status == "Active" {
      assert Offered(Report(t.hunterId), t, false);
      assert ApplyToTicket(t, CallOf(Report(t.hunterId))).status == to;
    } else if to == "Done" {
      assert ApplyToTicket(t, CallOf(Approve)).status == to;
    } else {
      assert ApplyToTicket(t, CallOf(Reject)).status == to;
    }
  }

  /** An open ticket whose category is outside the taxonomy is listed on neither claim screen. */
  lemma UnknownRankIsNeverClaimed(a: Action, t: Ticket, busy: bool)
    requires t.rank !in Normalize.AllTypes
    requires a.ClaimProject? || a.ClaimMaint?
    ensures !Offered(a, t, busy)
  {
  }

  /**
    Setting a ticket `Open` empties its teammate cell but keeps its claimant:
    the update sends no claimant, so the old one stays.
   */
  lemma OpenKeepsHunter(t: Ticket)
    ensures ApplyToTicket(t, StatusCall("Open", None, None)).partnerId == ""
    ensures ApplyToTicket(t, StatusCall("Open", None, None)).hunterId == t.hunterId
  {
  }

  /** A rejected ticket goes back to its claimant and teammates unchanged. */
  lemma RejectKeepsTeam(t: Ticket)
    requires Offered(Reject, t, false)
    ensures ApplyToTicket(t, CallOf(Reject)) == t.(status := "Active")
  {
  }

  /** The table after one row's update. */
  function AfterUpdate(f: Frame, i: int, c: StatusCall): (g: Frame)
    requires 0 <= i < |f.rows|
    ensures g.columns == f.columns && |g.rows| == |f.rows|
    ensures forall j :: 0 <= j < |f.rows| && j != i ==> g.rows[j] == f.rows[j]
  {
    Frame(f.columns, f.rows[i := ApplyToTicket(f.rows[i], c)])
  }

  /** On a table with every quest column, `is_me_busy` reads the rows as they are. */
  lemma BusyOnFullTable(f: Frame, me: string)
    requires f.columns == QuestColSet && f.rows != []
    ensures IsMeBusy(f, me) <==> exists i :: 0 <= i < |f.rows| && f.rows[i].status == "Active" && OnTeam(f.rows[i], me)
  {
    assert "id" in f.columns;
    forall i | 0 <= i < |f.rows| ensures EnsureQuestsSchema(f).rows[i] == f.rows[i] {
      ConformAll(f.rows[i]);
    }
  }

  /** A claim locks its claimant: afterwards every claim button is disabled for them. */
  lemma ClaimLocksClaimant(f: Frame, i: int, a: Action)
    requires f.columns == QuestColSet && 0 <= i < |f.rows|
    requires a.ClaimProject? || a.ClaimMaint?
    ensures IsMeBusy(AfterUpdate(f, i, CallOf(a)), a.me)
    ensures forall t: Ticket, b: Action :: (b.ClaimProject? || b.ClaimMaint?) && b.me == a.me ==>
              !Offered(b, t, IsMeBusy(AfterUpdate(f, i, CallOf(a)), a.me))
  {
    var g := AfterUpdate(f, i, CallOf(a));
    assert g.rows[i].status == "Active" && g.rows[i].hunterId == a.me;
    BusyOnFullTable(g, a.me);
  }

  /** A project claim also locks each named teammate, when the names hold no comma. */
  lemma ClaimLocksTeammates(f: Frame, i: int, me: string, partners: seq<string>, p: string)
    requires f.columns == QuestColSet && 0 <= i < |f.rows|
    requires forall q :: q in partners ==> ',' !in q
    requires p in partners && p != ""
    ensures IsMeBusy(AfterUpdate(f, i, CallOf(ClaimProject(me, partners))), p)
  {
    var g := AfterUpdate(f, i, CallOf(ClaimProject(me, partners)));
    JoinThenSplitNames(partners);
    assert g.rows[i].partnerId == JoinNames(partners);
    assert p in NonEmpty(partners);
    assert OnTeam(g.rows[i], p);
    BusyOnFullTable(g, p);
  }

  /**
    A report releases the claimant's lock when the reported ticket was the
    only active one they were on.
   */
  lemma ReportReleasesLock(f: Frame, i: int, me: string)
    requires f.columns == QuestColSet && 0 <= i < |f.rows|
    requires Offered(Report(me), f.rows[i], false)
    requires forall j :: 0 <= j < |f.rows| && j != i && f.rows[j].status == "Active" ==> !OnTeam(f.rows[j], me)
    ensures !IsMeBusy(AfterUpdate(f, i, CallOf(Report(me))), me)
  {
    var g := AfterUpdate(f, i, CallOf(Report(me)));
    BusyOnFullTable(g, me);
  }

  /**
    Only the claimant is checked: a teammate who is already busy on another
    ticket can still be named on a claim, which then puts them on two active
    tickets at once.
   */
  lemma BusyTeammateCanBeNamed()
    ensures var busyRow := Ticket("q1", "", "", "", Normalize.TypeEng[0], 0, "Active", "p", "", "");
            var openRow := Ticket("q2", "", "", "", Normalize.TypeEng[0], 0, "Open", "", "", "");
            var f := Frame(QuestColSet, [busyRow, openRow]);
            IsMeBusy(f, "p") && !IsMeBusy(f, "a") &&
            Offered(ClaimProject("a", ["p"]), openRow, IsMeBusy(f, "a"))
  {
    var busyRow := Ticket("q1", "", "", "", Normalize.TypeEng[0], 0, "Active", "p", "", "");
    var openRow := Ticket("q2", "", "", "", Normalize.TypeEng[0], 0, "Open", "", "", "");
    var f := Frame(QuestColSet, [busyRow, openRow]);
    assert Split("", ',') == [""];
    assert NonEmpty([""]) == [];
    assert SplitNames("") == [];
    assert OnTeam(f.rows[0], "p");
    BusyOnFullTable(f, "p");
    BusyOnFullTable(f, "a");
    assert !OnTeam(f.rows[0], "a");
  }

  /**
    A claim by `me` with comma-free teammates puts exactly `me` and the
    non-empty teammates on the ticket's team, with no name twice; the split
    of its points is then exact.
   */
  lemma ClaimedTeam(t: Ticket, me: string, partners: seq<string>)
    requires Offered(ClaimProject(me, partners), t, false)
    requires forall q :: q in partners ==> ',' !in q
    ensures Team(ApplyToTicket(t, CallOf(ClaimProject(me, partners)))) == [me] + NonEmpty(partners)
    ensures Distinct(Team(ApplyToTicket(t, CallOf(ClaimProject(me, partners)))))
  {
    var u := ApplyToTicket(t, CallOf(ClaimProject(me, partners)));
    JoinThenSplitNames(partners);
    assert u.partnerId == JoinNames(partners);
    NonEmptyDistinct(partners);
    DistinctCons(me, NonEmpty(partners));
  }

  /**
    A maintenance ticket end to end through the buttons: an open ticket worth
    90 and created this month is offered to a worker on a table where it is
    the only row, the worker claims it, reports it and an admin approves it,
    each button offered at its step, and the worker's monthly total is 90.
   */
  lemma ClaimReportApprovePays(t: Ticket, me: string, month: string)
    requires t.status == "Open" && t.rank in Normalize.TypeMaint
    requires t.points == 90 && StartsWith(t.createdAt, month)
    ensures var claimed := ApplyToTicket(t, CallOf(ClaimMaint(me)));
            var reported := ApplyToTicket(claimed, CallOf(Report(me)));
            var approved := ApplyToTicket(reported, CallOf(Approve));
            Offered(ClaimMaint(me), t, IsMeBusy(Frame(QuestColSet, [t]), me)) &&
            Offered(Report(me), claimed, false) &&
            Offered(Approve, reported, false) &&
            MonthTotal(Frame(QuestColSet, [approved]), me, month) == 90
  {
    BusyOnFullTable(Frame(QuestColSet, [t]), me);
    var claimed := ApplyToTicket(t, CallOf(ClaimMaint(me)));
    assert claimed.partnerId == JoinNames([]) == "";
    var reported := ApplyToTicket(claimed, CallOf(Report(me)));
    var approved := ApplyToTicket(reported, CallOf(Approve));
    assert approved.status == "Done" && approved.hunterId == me && approved.partnerId == "";
    SoloTicketPaysInFull(Frame(QuestColSet, [approved]), me, month);
  }

  /** Dropping the empty names keeps a list free of duplicates. */
  lemma {:induction false} NonEmptyDistinct(names: seq<string>)
    requires Distinct(names)
    ensures Distinct(NonEmpty(names))
  {
    if names != [] {
      var rest := names[1..];
      assert names == [names[0]] + rest;
      DistinctCons(names[0], rest);
      NonEmptyDistinct(rest);
      if names[0] != "" {
        DistinctCons(names[0], NonEmpty(rest));
      }
    }
  }

  /** A list is duplicate-free exactly when its head is not in its tail and its tail is duplicate-free. */
  lemma DistinctCons(x: string, rest: seq<string>)
    ensures Distinct([x] + rest) <==> x !in rest && Distinct(rest)
  {
    var s := [x] + rest;
    if x !in rest && Distinct(rest) {
      forall i, j | 0 <= i < j < |s| ensures s[i] != s[j] {
        assert s[j] == rest[j - 1];
        if i > 0 {
          assert s[i] == rest[i - 1];
        }
      }
    }
    if Distinct(s) {
      forall k | 0 <= k < |rest| ensures rest[k] != x {
        assert s[k + 1] == rest[k] && s[0] == x;
      }
      forall i, j | 0 <= i < j < |rest| ensures rest[i] != rest[j] {
        assert s[i + 1] == rest[i] && s[j + 1] == rest[j];
      }
    }
  }
}
