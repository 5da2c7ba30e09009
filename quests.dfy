/**
  The quests table as the dispatch logic reads it (a DataFrame of the
  `quests` sheet), the schema fix-up applied before every read, the busy lock
  and the monthly revenue split (app_v6_deploy.py).
 */
module Quests {
  import opened Text

  /** The column names of the `quests` sheet, in order. */
  const QuestCols: seq<string> :=
    ["id", "title", "quote_no", "description", "rank", "points", "status", "hunter_id", "created_at", "partner_id"]
  const QuestColSet: set<string> :=
    {"id", "title", "quote_no", "description", "rank", "points", "status", "hunter_id", "created_at", "partner_id"}

  /**
    One row of the quests table. `rank` holds the category, `hunter_id` the
    claimant and `partner_id` the teammates as one comma-joined string.
   */
  datatype Ticket = Ticket(
    id: string, title: string, quoteNo: string, description: string, rank: string,
    points: int, status: string, hunterId: string, createdAt: string, partnerId: string)

  /**
    A DataFrame of the quests sheet: the columns it has and its rows. The value
    a row holds for a column that is not in `columns` carries no meaning.
   */
  datatype Frame = Frame(columns: set<string>, rows: seq<Ticket>)

  /** pandas `df.empty`: no rows or no columns. */
  predicate IsEmpty(f: Frame)
  {
    f.rows == [] || f.columns == {}
  }

  /** The text a row holds in a text column (every column but `points`). */
  function Get(t: Ticket, col: string): string
  {
    match col
    case "id" => t.id
    case "title" => t.title
    case "quote_no" => t.quoteNo
    case "description" => t.description
    case "rank" => t.rank
    case "status" => t.status
    case "hunter_id" => t.hunterId
    case "created_at" => t.createdAt
    case "partner_id" => t.partnerId
    case _ => ""
  }

  /** A row with every column outside `cols` filled with the empty value (points read back as 0). */
  function Conform(t: Ticket, cols: set<string>): Ticket
  {
    Ticket(
      if "id" in cols then t.id else "",
      if "title" in cols then t.title else "",
      if "quote_no" in cols then t.quoteNo else "",
      if "description" in cols then t.description else "",
      if "rank" in cols then t.rank else "",
      if "points" in cols then t.points else 0,
      if "status" in cols then t.status else "",
      if "hunter_id" in cols then t.hunterId else "",
      if "created_at" in cols then t.createdAt else "",
      if "partner_id" in cols then t.partnerId else "")
  }

  /**
    `ensure_quests_schema`: an empty frame is returned as it is; otherwise
    every missing quest column is added with "" and only the quest columns
    are kept, so the result has exactly the quest columns.
   */
  function EnsureQuestsSchema(f: Frame): (g: Frame)
    ensures IsEmpty(f) ==> g == f
    ensures !IsEmpty(f) ==> g.columns == QuestColSet && !IsEmpty(g)
    ensures |g.rows| == |f.rows|
    ensures !IsEmpty(f) ==> forall i :: 0 <= i < |f.rows| ==> g.rows[i] == Conform(f.rows[i], f.columns)
  {
    if IsEmpty(f) then f
    else Frame(QuestColSet, seq(|f.rows|, i requires 0 <= i < |f.rows| => Conform(f.rows[i], f.columns)))
  }

  /**
    What the fix-up does to one row: a text column the frame has keeps its
    value, a missing one reads "", and missing points read 0.
   */
  lemma ConformGet(t: Ticket, cols: set<string>, c: string)
    requires c in QuestColSet
    ensures c != "points" ==> Get(Conform(t, cols), c) == (if c in cols then Get(t, c) else "")
    ensures Conform(t, cols).points == (if "points" in cols then t.points else 0)
  {
  }

  /** Conforming to all the quest columns changes nothing. */
  lemma ConformAll(t: Ticket)
    ensures Conform(t, QuestColSet) == t
  {
  }

  /** Applying the schema fix-up twice is the same as applying it once. */
  lemma EnsureQuestsSchemaIdempotent(f: Frame)
    ensures EnsureQuestsSchema(EnsureQuestsSchema(f)) == EnsureQuestsSchema(f)
  {
    var g := EnsureQuestsSchema(f);
    if !IsEmpty(f) {
      var h := EnsureQuestsSchema(g);
      forall i | 0 <= i < |g.rows| ensures h.rows[i] == g.rows[i] {
        ConformAll(g.rows[i]);
      }
    }
  }

  /** The team of a row: `[hunter_id] + [p for p in partner_id.split(",") if p]`. */
  function Team(t: Ticket): seq<string>
  {
    [t.hunterId] + SplitNames(t.partnerId)
  }

  /** `me` is the hunter of the row or one of its non-empty partners. */
  predicate OnTeam(t: Ticket, me: string)
  {
    me == t.hunterId || me in SplitNames(t.partnerId)
  }

  /** The search loop of `is_me_busy` over the rows. */
  function BusyIn(rows: seq<Ticket>, me: string): (b: bool)
    ensures b <==> exists i :: 0 <= i < |rows| && rows[i].status == "Active" && OnTeam(rows[i], me)
  {
    if rows == [] then false
    else if rows[0].status == "Active" && OnTeam(rows[0], me) then true
    else
      var b := BusyIn(rows[1..], me);
      assert forall i :: 1 <= i < |rows| ==> rows[i] == rows[1..][i - 1];
      b
  }

  /**
    `is_me_busy`: false on an empty frame; otherwise true exactly when some
    `Active` row has `me` as hunter or among its partners.
   */
  function IsMeBusy(f: Frame, me: string): (b: bool)
    ensures IsEmpty(f) ==> !b
    ensures b <==> (!IsEmpty(f) &&
      exists i :: 0 <= i < |f.rows| && EnsureQuestsSchema(f).rows[i].status == "Active"
        && OnTeam(EnsureQuestsSchema(f).rows[i], me))
  {
    if IsEmpty(f) then false else BusyIn(EnsureQuestsSchema(f).rows, me)
  }

  /**
    What `me` earns from one row under the split of `calc_my_total_month`:
    nothing outside the team; the team size divides the points with Python's
    floor `//` and `%` (Euclidean here, which agrees for a positive divisor);
    the hunter takes the share plus the remainder, everyone else the share.
   */
  function Payout(t: Ticket, me: string): (p: int)
    ensures me !in Team(t) ==> p == 0
    ensures t.points >= 0 ==> 0 <= p <= t.points
  {
    var team := Team(t);
    if me !in team then 0
    else
      ShareBounds(t.points, |team|);
      var share := t.points / |team|;
      var rem := t.points % |team|;
      if me == t.hunterId then share + rem else share
  }

  /** A non-negative amount split `n` ways: the share is non-negative and share plus remainder is at most the amount. */
  lemma ShareBounds(amount: int, n: int)
    requires n > 0
    ensures amount >= 0 ==> 0 <= amount / n && amount / n + amount % n <= amount
  {
    if amount >= 0 {
      var q := amount / n;
      assert amount == n * q + amount % n;
      MulAtLeast(n, q);
    }
  }

  /** A positive factor does not shrink a non-negative number. */
  lemma {:induction false} MulAtLeast(n: int, q: int)
    requires n >= 1 && q >= 0
    ensures n * q >= q
    decreases n
  {
    if n > 1 {
      MulAtLeast(n - 1, q);
      assert n * q == (n - 1) * q + q;
    }
  }

  /** A team with no name twice (the hunter is not also a partner). */
  predicate Distinct(names: seq<string>)
  {
    forall i, j :: 0 <= i < j < |names| ==> names[i] != names[j]
  }

  /** The sum of the payouts of `t` to each of `members`. */
  function SumPayouts(t: Ticket, members: seq<string>): int
  {
    if members == [] then 0 else Payout(t, members[0]) + SumPayouts(t, members[1..])
  }

  /** Every partner of a duplicate-free team is paid the plain share. */
  lemma {:induction false} PartnersShare(t: Ticket, members: seq<string>, share: int)
    requires share == t.points / |Team(t)|
    requires forall m :: m in members ==> m in Team(t) && m != t.hunterId
    ensures SumPayouts(t, members) == |members| * share
  {
    if members != [] {
      assert members[0] in members;
      assert forall m :: m in members[1..] ==> m in members;
      PartnersShare(t, members[1..], share);
      assert |members| * share == share + (|members| - 1) * share;
    }
  }

  /**
    The split of one ticket is exact: for a team with no duplicate names the
    payouts to its members add up to the ticket's points, and the remainder
    the hunter keeps is below the team size.
   */
  lemma PayoutsSumToPoints(t: Ticket)
    requires Distinct(Team(t))
    ensures SumPayouts(t, Team(t)) == t.points
    ensures 0 <= t.points % |Team(t)| < |Team(t)|
  {
    var n := |Team(t)|;
    var share := t.points / n;
    var partners := SplitNames(t.partnerId);
    PartnersOfDistinctTeam(t);
    PartnersShare(t, partners, share);
    assert SumPayouts(t, Team(t)) == Payout(t, t.hunterId) + SumPayouts(t, partners);
    DivModSplit(t.points, n);
  }

  /** The partners of a duplicate-free team are team members other than the hunter. */
  lemma PartnersOfDistinctTeam(t: Ticket)
    requires Distinct(Team(t))
    ensures forall m :: m in SplitNames(t.partnerId) ==> m in Team(t) && m != t.hunterId
  {
    var team := Team(t);
    var partners := SplitNames(t.partnerId);
    forall m | m in partners ensures m in team && m != t.hunterId {
      var k :| 0 <= k < |partners| && partners[k] == m;
      assert team[k + 1] == m && team[0] == t.hunterId;
    }
  }

  /** Floor division by a positive team size: `share * n + rem == amount` and `0 <= rem < n`. */
  lemma DivModSplit(amount: int, n: int)
    requires n > 0
    ensures (amount % n + amount / n) + (n - 1) * (amount / n) == amount
    ensures 0 <= amount % n < n
  {
    assert (n - 1) * (amount / n) + amount / n == n * (amount / n);
  }

  /** A ticket worth 100 split by a team of three: the hunter gets 34, each partner 33. */
  lemma PayoutOfHundredByThree(t: Ticket, p: string)
    requires t.points == 100 && |Team(t)| == 3 && Distinct(Team(t))
    requires p in SplitNames(t.partnerId)
    ensures Payout(t, t.hunterId) == 34
    ensures Payout(t, p) == 33
  {
    var k :| 0 <= k < |SplitNames(t.partnerId)| && SplitNames(t.partnerId)[k] == p;
    assert Team(t)[k + 1] == p && Team(t)[0] == t.hunterId;
  }

  /** A row that counts towards a month: `Done` and created in that month (`created_at` starts with it). */
  predicate Counts(t: Ticket, month: string)
  {
    t.status == "Done" && StartsWith(t.createdAt, month)
  }

  /** What `me` earns from the rows, in order. */
  function TotalOf(rows: seq<Ticket>, me: string, month: string): (total: int)
    ensures (forall i :: 0 <= i < |rows| ==> rows[i].points >= 0) ==> total >= 0
  {
    if rows == [] then 0
    else
      var last := rows[|rows| - 1];
      TotalOf(rows[..|rows| - 1], me, month) + (if Counts(last, month) then Payout(last, me) else 0)
  }

  /** The value of `calc_my_total_month(df, me, month)`. */
  function MonthTotal(f: Frame, me: string, month: string): (total: int)
    ensures IsEmpty(f) ==> total == 0
    ensures (forall i :: 0 <= i < |f.rows| ==> f.rows[i].points >= 0) ==> total >= 0
  {
    if IsEmpty(f) then 0 else TotalOf(EnsureQuestsSchema(f).rows, me, month)
  }

  /** One more row of the loop: the total over the first `i + 1` rows adds that row's payout when it counts. */
  lemma TotalOfStep(rows: seq<Ticket>, i: int, me: string, month: string)
    requires 0 <= i < |rows|
    ensures TotalOf(rows[..i + 1], me, month) ==
            TotalOf(rows[..i], me, month) + (if Counts(rows[i], month) then Payout(rows[i], me) else 0)
  {
    assert rows[..i + 1][..i] == rows[..i];
  }

  /** `calc_my_total_month`: the loop accumulating `total` over the done rows of the month. */
  method CalcMyTotalMonth(f: Frame, me: string, month: string) returns (total: int)
    ensures total == MonthTotal(f, me, month)
  {
    if IsEmpty(f) {
      return 0;
    }
    var df := EnsureQuestsSchema(f);
    total := 0;
    var i := 0;
    while i < |df.rows|
      invariant 0 <= i <= |df.rows|
      invariant total == TotalOf(df.rows[..i], me, month)
    {
      var r := df.rows[i];
      var team := [r.hunterId] + SplitNames(r.partnerId);
      TotalOfStep(df.rows, i, me, month);
      if r.status == "Done" && StartsWith(r.createdAt, month) && me in team {
        var share := r.points / |team|;
        var rem := r.points % |team|;
        total := total + if me == r.hunterId then share + rem else share;
      }
      i := i + 1;
    }
    assert df.rows[..i] == df.rows;
  }

  /** Someone on no counted row's team earns nothing that month. */
  lemma {:induction false} TotalOfOutsider(rows: seq<Ticket>, me: string, month: string)
    requires forall i :: 0 <= i < |rows| && Counts(rows[i], month) ==> me !in Team(rows[i])
    ensures TotalOf(rows, me, month) == 0
  {
    if rows != [] {
      TotalOfOutsider(rows[..|rows| - 1], me, month);
    }
  }

  /** Totals add over concatenated tables: the loop's order of rows does not split the sum. */
  lemma {:induction false} TotalOfAppend(a: seq<Ticket>, b: seq<Ticket>, me: string, month: string)
    ensures TotalOf(a + b, me, month) == TotalOf(a, me, month) + TotalOf(b, me, month)
  {
    if b == [] {
      assert a + b == a;
    } else {
      var b' := b[..|b| - 1];
      assert (a + b)[..|a + b| - 1] == a + b';
      assert (a + b)[|a + b| - 1] == b[|b| - 1];
      TotalOfAppend(a, b', me, month);
    }
  }

  /** A row that does not count (not `Done`, or not of the month) adds nothing to anyone's total, wherever it sits. */
  lemma TotalOfIgnoresOthers(a: seq<Ticket>, t: Ticket, b: seq<Ticket>, me: string, month: string)
    requires !Counts(t, month)
    ensures TotalOf(a + [t] + b, me, month) == TotalOf(a + b, me, month)
  {
    TotalOfAppend(a + [t], b, me, month);
    TotalOfAppend(a, [t], me, month);
    TotalOfAppend(a, b, me, month);
    assert [t][..0] == [];
  }

  /**
    A table of one row, done this month, claimed solo by `me` and worth 90,
    gives `me` a monthly total of 90.
   */
  lemma SoloTicketPaysInFull(f: Frame, me: string, month: string)
    requires f.columns == QuestColSet && |f.rows| == 1
    requires f.rows[0].status == "Done" && StartsWith(f.rows[0].createdAt, month)
    requires f.rows[0].hunterId == me && f.rows[0].partnerId == "" && f.rows[0].points == 90
    ensures MonthTotal(f, me, month) == 90
  {
    var g := EnsureQuestsSchema(f);
    assert "id" in f.columns;
    ConformAll(f.rows[0]);
    assert g.rows[0] == f.rows[0];
    assert Split("", ',') == [""];
    assert NonEmpty([""]) == [];
    assert Team(g.rows[0]) == [me];
    assert Payout(g.rows[0], me) == 90;
    assert g.rows[..0] == [];
    assert TotalOf(g.rows, me, month) == TotalOf(g.rows[..0], me, month) + Payout(g.rows[0], me);
  }
}
