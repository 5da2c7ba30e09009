/**
  The hunter and admin dashboards of app_v6_deploy.py, decision logic only:
  the team label, the default tab each screen opens on, the monthly KPI
  banner (target, tier, streak and balloon latches kept in the session
  state) and the anonymous team-progress wall.
 */
module Dashboard {
  import opened Wrappers
  import opened Quests
  import Normalize
  import Lifecycle
  import Tracker

  // ---------------------------------------------------------------- teams

  const TeamEng1: seq<string> := ["譚學峰", "邱顯杰"]
  const TeamEng2: seq<string> := ["古孟平", "李名傑"]
  const TeamMaint1: seq<string> := ["陳緯民", "李宇傑"]

  const LabelEng1 := "🏗️ 工程 1 組"
  const LabelEng2 := "🏗️ 工程 2 組"
  const LabelMaint1 := "🔧 維養 1 組"
  const LabelNone := "未分組"

  /** `my_team_label`: the first team (in the order engineering 1, engineering 2, maintenance 1) that lists the user. */
  function MyTeamLabel(me: string): (tag: string)
    ensures tag in {LabelEng1, LabelEng2, LabelMaint1, LabelNone}
    ensures tag == LabelNone <==> me !in TeamEng1 && me !in TeamEng2 && me !in TeamMaint1
  {
    if me in TeamEng1 then LabelEng1
    else if me in TeamEng2 then LabelEng2
    else if me in TeamMaint1 then LabelMaint1
    else LabelNone
  }

  /**
    No one is on two teams, so the label is decided by membership alone:
    each member of a team gets that team's label, and a user on no team is
    the only one labelled unassigned.
   */
  lemma TeamLabelPartition(me: string)
    ensures MyTeamLabel(me) == LabelEng1 <==> me in TeamEng1
    ensures MyTeamLabel(me) == LabelEng2 <==> me in TeamEng2
    ensures MyTeamLabel(me) == LabelMaint1 <==> me in TeamMaint1
    ensures MyTeamLabel(me) == LabelNone <==> me !in TeamEng1 + TeamEng2 + TeamMaint1
  {
    assert me in TeamEng1 + TeamEng2 + TeamMaint1 <==> me in TeamEng1 || me in TeamEng2 || me in TeamMaint1;
    assert me in TeamEng2 ==> me !in TeamEng1 by {
      if me in TeamEng2 {
        assert me == TeamEng2[0] || me == TeamEng2[1];
      }
    }
    assert me in TeamMaint1 ==> me !in TeamEng1 && me !in TeamEng2 by {
      if me in TeamMaint1 {
        assert me == TeamMaint1[0] || me == TeamMaint1[1];
      }
    }
  }

  // ---------------------------------------------------------------- default tabs

  const ReviewTab := "🔍 驗收審核"
  const DispatchTab := "📷 AI 快速派單"
  const EngTab := "🏗️ 工程標案"
  const MaintTab := "🔧 維修派單"
  const MineTab := "📂 我的任務"

  /** Some row of the sheet (read as it stands, a missing column reading as empty) carries this status. */
  predicate AnyStatus(f: Frame, status: string)
  {
    "status" in f.columns && exists i :: 0 <= i < |f.rows| && f.rows[i].status == status
  }

  /** Some row of the sheet is open and of one of these kinds of work. */
  predicate AnyOpenOf(f: Frame, kinds: seq<string>)
  {
    "status" in f.columns && "rank" in f.columns &&
    exists i :: 0 <= i < |f.rows| && f.rows[i].status == "Open" && f.rows[i].rank in kinds
  }

  /**
    `pick_admin_tab`: the review tab when some ticket awaits review, the
    dispatch tab otherwise; `None` is the lookup failure on an empty sheet
    that has no status column.
   */
  function PickAdminTab(f: Frame): (tab: Option<string>)
    ensures tab.None? <==> IsEmpty(f) && "status" !in f.columns
    ensures tab == Some(ReviewTab) <==> AnyStatus(f, "Pending")
    ensures tab.Some? ==> tab.value in {ReviewTab, DispatchTab}
  {
    var g := EnsureQuestsSchema(f);
    if "status" !in g.columns then None
    else
      if IsEmpty(f) then Some(DispatchTab)
      else
        ConformedStatus(f);
        if exists i :: 0 <= i < |g.rows| && g.rows[i].status == "Pending" then Some(ReviewTab)
        else Some(DispatchTab)
  }

  /** Conforming the sheet to the quest columns keeps every status and rank of a sheet that has those columns, and blanks them otherwise. */
  lemma ConformedStatus(f: Frame)
    requires !IsEmpty(f)
    ensures var g := EnsureQuestsSchema(f);
            forall i :: 0 <= i < |g.rows| ==>
              g.rows[i].status == (if "status" in f.columns then f.rows[i].status else "") &&
              g.rows[i].rank == (if "rank" in f.columns then f.rows[i].rank else "")
  {
  }

  /**
    `pick_hunter_tab`: the project tab when an open project exists, else the
    repair tab when an open maintenance job exists, else the hunter's own
    tasks; `None` is the lookup failure on an empty sheet missing the status
    or the kind column.
   */
  function PickHunterTab(f: Frame): (tab: Option<string>)
    ensures tab.None? <==> IsEmpty(f) && !("status" in f.columns && "rank" in f.columns)
    ensures tab == Some(EngTab) <==> AnyOpenOf(f, Normalize.TypeEng)
    ensures tab == Some(MaintTab) <==> !AnyOpenOf(f, Normalize.TypeEng) && AnyOpenOf(f, Normalize.TypeMaint)
    ensures tab.Some? ==> tab.value in {EngTab, MaintTab, MineTab}
  {
    var g := EnsureQuestsSchema(f);
    if "status" !in g.columns || "rank" !in g.columns then None
    else if IsEmpty(f) then Some(MineTab)
    else
      ConformedStatus(f);
      EmptyRankIsNoKind();
      if exists i :: 0 <= i < |g.rows| && g.rows[i].status == "Open" && g.rows[i].rank in Normalize.TypeEng then
      Some(EngTab)
    else if exists i :: 0 <= i < |g.rows| && g.rows[i].status == "Open" && g.rows[i].rank in Normalize.TypeMaint then
      Some(MaintTab)
    else Some(MineTab)
  }

  /** A blank kind cell names no kind of work. */
  lemma EmptyRankIsNoKind()
    ensures "" !in Normalize.TypeEng && "" !in Normalize.TypeMaint
  {
  }

  /**
    The hunter screen opens on the project tab only when the project tab has
    something a free hunter can claim, alone or with teammates.
   */
  lemma EngTabOffersClaim(f: Frame, me: string)
    requires PickHunterTab(f) == Some(EngTab)
    ensures exists i :: 0 <= i < |f.rows| &&
              Lifecycle.Offered(Lifecycle.ClaimProject(me, []), f.rows[i], false)
  {
    var i :| 0 <= i < |f.rows| && f.rows[i].status == "Open" && f.rows[i].rank in Normalize.TypeEng;
    assert Lifecycle.Offered(Lifecycle.ClaimProject(me, []), f.rows[i], false);
  }

  // ---------------------------------------------------------------- KPI banner

  /** The monthly target `TARGET`. */
  const Target: int := 250_000

  /** One rung of the tier ladder: name, lowest monthly total, caption. */
  datatype Tier = Tier(name: string, min: int, desc: string)

  const Tiers: seq<Tier> := [
    Tier("🟦 起步", 0, "尚未達標"),
    Tier("🟩 進階", 100_000, "節奏上來了"),
    Tier("🟨 菁英", 250_000, "達標！"),
    Tier("🟧 傳奇", 400_000, "超標強者"),
    Tier("🟥 神話", 600_000, "封神等級")
  ]

  /** The index of the last of the first `n` tiers whose minimum the total reaches, or the first tier when none is. */
  function LastReached(total: int, n: nat): (k: nat)
    requires n <= |Tiers|
    ensures k < |Tiers|
    ensures k == 0 || (k < n && Tiers[k].min <= total)
    decreases n
  {
    if n == 0 then 0
    else if Tiers[n - 1].min <= total then n - 1
    else LastReached(total, n - 1)
  }

  /** The tier the banner shows for a monthly total. */
  function TierIndex(total: int): nat
  {
    LastReached(total, |Tiers|)
  }

  /** The tier loop of `hunter_view`: every tier whose minimum the total reaches overwrites the pick. */
  method PickTier(total: int) returns (t: Tier)
    ensures t == Tiers[TierIndex(total)]
  {
    var k := 0;
    for i := 0 to |Tiers|
      invariant k == LastReached(total, i)
    {
      if total >= Tiers[i].min {
        k := i;
      }
    }
    t := Tiers[k];
  }

  /** Tiers reached past index `k` within the first `n` would have been picked instead. */
  lemma {:induction false} NoLaterReached(total: int, n: nat, j: nat)
    requires n <= |Tiers| && LastReached(total, n) < j < n
    ensures total < Tiers[j].min
    decreases n
  {
    if Tiers[n - 1].min > total && j < n - 1 {
      NoLaterReached(total, n - 1, j);
    }
  }

  /**
    The shown tier is the highest one reached: a non-negative total reaches
    its tier's minimum and falls short of the next tier's minimum.
   */
  lemma TierBrackets(total: int)
    ensures total >= 0 ==> Tiers[TierIndex(total)].min <= total
    ensures TierIndex(total) + 1 < |Tiers| ==> total < Tiers[TierIndex(total) + 1].min
  {
    var k := TierIndex(total);
    if k + 1 < |Tiers| {
      NoLaterReached(total, |Tiers|, k + 1);
    }
  }

  /** A larger total never shows a lower tier. */
  lemma TierMonotone(a: int, b: int)
    requires a <= b
    ensures TierIndex(a) <= TierIndex(b)
  {
    TierBrackets(b);
  }

  /** The target is reached exactly when the elite tier or a higher one is shown. */
  lemma HitIsEliteTier(total: int)
    ensures total >= Target <==> TierIndex(total) >= 2
  {
    TierBrackets(total);
  }

  /** The source only ever stores a number under `streak` and a flag under `prev_hit` and `target_fx_fired`. */
  predicate LatchesTyped(state: map<string, Value>)
  {
    ("streak" in state ==> state["streak"].Num?) &&
    ("prev_hit" in state ==> state["prev_hit"].Flag?) &&
    ("target_fx_fired" in state ==> state["target_fx_fired"].Flag?)
  }

  type Value = Tracker.Value

  /** One step of the streak latch: a hit after a miss adds one, a miss resets to zero, a repeated hit keeps the count. */
  function StreakStep(streak: int, prevHit: bool, hit: bool): (int, bool)
  {
    (if hit && !prevHit then streak + 1 else if !hit then 0 else streak, hit)
  }

  /** The session after the streak latch for this run's `hit`. */
  function StreakAfter(state: map<string, Value>, hit: bool): map<string, Value>
    requires LatchesTyped(state)
  {
    var streak := if "streak" in state then state["streak"].n else 0;
    var prev := if "prev_hit" in state then state["prev_hit"].b else false;
    var next := StreakStep(streak, prev, hit);
    state["streak" := Tracker.Num(next.0)]["prev_hit" := Tracker.Flag(next.1)]
  }

  /** The streak latch of `hunter_view` for this month's total; returns whether the target is hit. */
  method UpdateStreak(s: Tracker.Session, total: int) returns (hit: bool)
    requires LatchesTyped(s.state)
    modifies s
    ensures hit <==> total >= Target
    ensures s.state == StreakAfter(old(s.state), hit) && LatchesTyped(s.state)
  {
    // `setdefault` of both keys: the writes below overwrite them either way
    var streak := if "streak" in s.state then s.state["streak"].n else 0;
    var prevHit := if "prev_hit" in s.state then s.state["prev_hit"].b else false;
    hit := total >= Target;
    if hit && !prevHit {
      streak := streak + 1;
    } else if !hit {
      streak := 0;
    }
    s.state := s.state["streak" := Tracker.Num(streak)]["prev_hit" := Tracker.Flag(hit)];
  }

  /** The streak and previous-hit flag after a session's runs, from a fresh session. */
  function StreakRun(hits: seq<bool>): (int, bool)
  {
    if hits == [] then (0, false)
    else
      var before := StreakRun(hits[..|hits| - 1]);
      StreakStep(before.0, before.1, hits[|hits| - 1])
  }

  /**
    The streak never counts past one: it is 1 exactly when the latest run hit
    the target and 0 otherwise, however many runs hit in a row, because it
    only grows on a hit that follows a miss and every miss resets it.
   */
  lemma {:induction false} StreakAtMostOne(hits: seq<bool>)
    ensures StreakRun(hits).1 == (hits != [] && hits[|hits| - 1])
    ensures StreakRun(hits).0 == (if StreakRun(hits).1 then 1 else 0)
  {
    if hits != [] {
      StreakAtMostOne(hits[..|hits| - 1]);
    }
  }

  /** The streak the session holds, 0 before the first run. */
  function StreakOf(state: map<string, Value>): int
    requires LatchesTyped(state)
  {
    if "streak" in state then state["streak"].n else 0
  }

  /** The previous-hit flag the session holds, false before the first run. */
  function PrevHitOf(state: map<string, Value>): bool
    requires LatchesTyped(state)
  {
    if "prev_hit" in state then state["prev_hit"].b else false
  }

  /**
    The latch carries the session along its runs: a session holding the
    outcome of runs `hits` holds the outcome of `hits + [hit]` after this run,
    so `StreakAtMostOne` bounds what the banner shows.
   */
  lemma StreakAfterTracksRun(state: map<string, Value>, hits: seq<bool>, hit: bool)
    requires LatchesTyped(state)
    requires StreakOf(state) == StreakRun(hits).0 && PrevHitOf(state) == StreakRun(hits).1
    ensures var next := StreakAfter(state, hit);
            LatchesTyped(next) &&
            StreakOf(next) == StreakRun(hits + [hit]).0 && PrevHitOf(next) == StreakRun(hits + [hit]).1
  {
    assert (hits + [hit])[..|hits|] == hits;
  }

  /** The session after the balloon latch: balloons fire on a hit not yet celebrated, and the flag follows the hit. */
  function BalloonsAfter(state: map<string, Value>, hit: bool): map<string, Value>
  {
    state["target_fx_fired" := Tracker.Flag(hit)]
  }

  /** The balloon latch of `hunter_view`; returns whether the balloons are shown in this run. */
  method FireBalloons(s: Tracker.Session, hit: bool) returns (fire: bool)
    requires LatchesTyped(s.state)
    modifies s
    ensures fire <==> hit && !("target_fx_fired" in old(s.state) && old(s.state)["target_fx_fired"].b)
    ensures s.state == BalloonsAfter(old(s.state), hit) && LatchesTyped(s.state)
  {
    if "target_fx_fired" !in s.state {
      s.state := s.state["target_fx_fired" := Tracker.Flag(false)];
    }
    fire := false;
    if hit && !s.state["target_fx_fired"].b {
      s.state := s.state["target_fx_fired" := Tracker.Flag(true)];
      fire := true;
    }
    if !hit {
      s.state := s.state["target_fx_fired" := Tracker.Flag(false)];
    }
  }

  /** Whether the session has celebrated: the `target_fx_fired` flag, false before the first run. */
  function FiredOf(state: map<string, Value>): bool
    requires LatchesTyped(state)
  {
    "target_fx_fired" in state && state["target_fx_fired"].b
  }

  /** The session after a run of the balloon latch, from a fresh session. */
  function BalloonState(hits: seq<bool>): (state: map<string, Value>)
    ensures LatchesTyped(state)
  {
    if hits == [] then map[]
    else BalloonsAfter(BalloonState(hits[..|hits| - 1]), hits[|hits| - 1])
  }

  /**
    For a session's runs from a fresh session, whether each run showed the
    balloons: the latch fires on a hit while the session's flag is down.
   */
  function BalloonRun(hits: seq<bool>): (fires: seq<bool>)
    ensures |fires| == |hits|
  {
    if hits == [] then []
    else
      var before := hits[..|hits| - 1];
      BalloonRun(before) + [hits[|hits| - 1] && !FiredOf(BalloonState(before))]
  }

  /**
    The latch carries the session along its runs: a session whose flag holds
    the outcome of runs `hits` fires in this run exactly as `BalloonRun` says
    the run after `hits` fires, and its flag then holds the outcome of `hits + [hit]`.
   */
  lemma BalloonsAfterTracksRun(state: map<string, Value>, hits: seq<bool>, hit: bool)
    requires LatchesTyped(state)
    requires FiredOf(state) == FiredOf(BalloonState(hits))
    ensures var next := BalloonsAfter(state, hit);
            LatchesTyped(next) &&
            (hit && !FiredOf(state) <==> BalloonRun(hits + [hit])[|hits|]) &&
            FiredOf(next) == FiredOf(BalloonState(hits + [hit]))
  {
    var h := hits + [hit];
    assert h[..|hits|] == hits && h[|hits|] == hit;
    var fired := FiredOf(BalloonState(hits));
    assert BalloonRun(h) == BalloonRun(hits) + [hit && !fired];
    FlagFollowsHit(state, hit);
    FlagFollowsHit(BalloonState(hits), hit);
  }

  /** The balloon latch leaves the session typed, with its flag equal to this run's hit. */
  lemma FlagFollowsHit(state: map<string, Value>, hit: bool)
    requires LatchesTyped(state)
    ensures LatchesTyped(BalloonsAfter(state, hit)) && FiredOf(BalloonsAfter(state, hit)) == hit
  {
  }

  /** After a session's runs, the flag is up exactly when the latest run hit. */
  lemma FiredAfterLastHit(hits: seq<bool>)
    ensures FiredOf(BalloonState(hits)) == (hits != [] && hits[|hits| - 1])
  {
  }

  /**
    The balloons celebrate each reaching of the target once: a run shows them
    exactly when it hits and the run before it did not.
   */
  lemma {:induction false} BalloonsOnRisingEdge(hits: seq<bool>, i: int)
    requires 0 <= i < |hits|
    ensures BalloonRun(hits)[i] <==> hits[i] && (i == 0 || !hits[i - 1])
  {
    var before := hits[..|hits| - 1];
    FiredAfterLastHit(before);
    var last := hits[|hits| - 1] && !FiredOf(BalloonState(before));
    assert BalloonRun(hits) == BalloonRun(before) + [last];
    if i < |before| {
      BalloonsOnRisingEdge(before, i);
      assert BalloonRun(hits)[i] == BalloonRun(before)[i];
    }
  }

  // ---------------------------------------------------------------- team wall

  /** The progress buckets of the team wall. */
  datatype Level = Reached | Rushing | Moving | Starting

  /** The bucket of a monthly total: the target, half the target, anything above zero, nothing. */
  function LevelOf(total: int): (l: Level)
    ensures l == Reached <==> total >= Target
    ensures (l == Reached || l == Rushing) <==> 2 * total >= Target
    ensures l == Starting <==> total <= 0
  {
    if total >= Target then Reached
    else if 2 * total >= Target then Rushing
    else if total > 0 then Moving
    else Starting
  }

  /** Buckets ordered from the lowest. */
  function LevelRank(l: Level): nat
  {
    match l
    case Starting => 0
    case Moving => 1
    case Rushing => 2
    case Reached => 3
  }

  /** A larger total never lands in a lower bucket, and the top bucket is exactly the banner's hit. */
  lemma LevelMonotone(a: int, b: int)
    requires a <= b
    ensures LevelRank(LevelOf(a)) <= LevelRank(LevelOf(b))
    ensures LevelOf(b) == Reached <==> TierIndex(b) >= 2
  {
    HitIsEliteTier(b);
  }

  /** How many of the hunters' monthly totals fall in bucket `l`. */
  function CountLevel(f: Frame, hunters: seq<string>, month: string, l: Level): nat
  {
    if hunters == [] then 0
    else
      CountLevel(f, hunters[..|hunters| - 1], month, l) +
      (if LevelOf(MonthTotal(f, hunters[|hunters| - 1], month)) == l then 1 else 0)
  }

  /** Every hunter lands in exactly one bucket, so the four counts add up to the number of hunters. */
  lemma {:induction false} LevelsPartition(f: Frame, hunters: seq<string>, month: string)
    ensures CountLevel(f, hunters, month, Reached) + CountLevel(f, hunters, month, Rushing) +
            CountLevel(f, hunters, month, Moving) + CountLevel(f, hunters, month, Starting) == |hunters|
  {
    if hunters != [] {
      LevelsPartition(f, hunters[..|hunters| - 1], month);
    }
  }

  /** The team wall of `hunter_view`: each hunter's monthly total, counted into its bucket. */
  method TeamWall(f: Frame, hunters: seq<string>, month: string) returns (hit: nat, rush: nat, mid: nat, start: nat)
    ensures hit == CountLevel(f, hunters, month, Reached)
    ensures rush == CountLevel(f, hunters, month, Rushing)
    ensures mid == CountLevel(f, hunters, month, Moving)
    ensures start == CountLevel(f, hunters, month, Starting)
  {
    hit, rush, mid, start := 0, 0, 0, 0;
    for i := 0 to |hunters|
      invariant hit == CountLevel(f, hunters[..i], month, Reached)
      invariant rush == CountLevel(f, hunters[..i], month, Rushing)
      invariant mid == CountLevel(f, hunters[..i], month, Moving)
      invariant start == CountLevel(f, hunters[..i], month, Starting)
    {
      var total := CalcMyTotalMonth(f, hunters[i], month);
      assert hunters[..i + 1][..i] == hunters[..i];
      if total >= Target {
        hit := hit + 1;
      } else if 2 * total >= Target {
        rush := rush + 1;
      } else if total > 0 {
        mid := mid + 1;
      } else {
        start := start + 1;
      }
    }
    assert hunters[..|hunters|] == hunters;
  }
}
