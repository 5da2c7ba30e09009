/**
  The "new quests" tracker behind the refresh button (app_v6_deploy.py): a
  signature of the quests table (its largest `created_at` and its largest
  `id`), the per-screen last-seen signature kept in the session state, the
  staleness rule and what a click on the button does. Time is a parameter
  in whole seconds.
 */
module Tracker {
  import opened Wrappers
  import opened Text
  import opened Quests
  import Lifecycle
  import QuestSheet

  /** A value held in the session state. */
  datatype Value = Str(s: string) | Num(n: int) | Flag(b: bool)

  /** Python `str(v)` of a session value. */
  function StrOf(v: Value): string
  {
    match v
    case Str(s) => s
    case Num(n) => IntToString(n)
    case Flag(b) => if b then "True" else "False"
  }

  /** `REFRESH_TTL_SECONDS`. */
  const RefreshTtlSeconds: int := 15

  /** One text column of the table, row by row (`df[col].astype(str)`). */
  function ColumnText(rows: seq<Ticket>, col: string): (r: seq<string>)
    ensures |r| == |rows| && forall i :: 0 <= i < |rows| ==> r[i] == Get(rows[i], col)
  {
    seq(|rows|, i requires 0 <= i < |rows| => Get(rows[i], col))
  }

  /** `str(df[col].astype(str).max())` when the column exists, `""` when it does not. */
  function ColumnMax(f: Frame, col: string): (m: string)
    requires f.rows != []
    ensures col in f.columns ==> m in ColumnText(f.rows, col)
    ensures col in f.columns ==> forall i :: 0 <= i < |f.rows| ==> LexLe(Get(f.rows[i], col), m)
    ensures col !in f.columns ==> m == ""
  {
    if col in f.columns then
      var m := MaxString(ColumnText(f.rows, col));
      assert forall i :: 0 <= i < |f.rows| ==> ColumnText(f.rows, col)[i] in ColumnText(f.rows, col);
      m
    else ""
  }

  /** `_latest_quest_signature`: `EMPTY` for an empty table, else the largest creation time and id joined by `|`. */
  function LatestSignature(f: Frame): (sig: string)
    ensures IsEmpty(f) ==> sig == "EMPTY"
    ensures !IsEmpty(f) ==> '|' in sig
  {
    if IsEmpty(f) then "EMPTY" else ColumnMax(f, "created_at") + "|" + ColumnMax(f, "id")
  }

  /** A signature is `EMPTY` exactly for an empty table, and is never the empty text. */
  lemma SignatureEmptyIff(f: Frame)
    ensures LatestSignature(f) == "EMPTY" <==> IsEmpty(f)
    ensures LatestSignature(f) != ""
  {
    if !IsEmpty(f) {
      var a := ColumnMax(f, "created_at");
      var s := LatestSignature(f);
      assert s[|a|] == '|';
      assert '|' !in "EMPTY";
    }
  }

  /** In `a|b` with no bar in `a`, the first bar stands right after `a`. */
  lemma FirstBar(a: string, b: string)
    requires '|' !in a
    ensures (a + "|" + b)[|a|] == '|'
    ensures forall i :: 0 <= i < |a| ==> (a + "|" + b)[i] != '|'
  {
    forall i | 0 <= i < |a|
      ensures (a + "|" + b)[i] != '|'
    {
      assert (a + "|" + b)[i] == a[i] && a[i] in a;
    }
  }

  /** `a|b` determines `a` when `a` holds no bar. */
  lemma BarJoinLeft(a: string, b: string, c: string, d: string)
    requires '|' !in a && '|' !in c && a + "|" + b == c + "|" + d
    ensures a == c
  {
    FirstBar(a, b);
    FirstBar(c, d);
    assert |a| == |c|;
    assert a == (a + "|" + b)[..|a|] && c == (c + "|" + d)[..|c|];
  }

  /**
    Changing a ticket's status (a claim, report, approval or rejection)
    leaves the signature as it was: ids and creation times do not change, so
    other screens see no new quests.
   */
  lemma SignatureIgnoresStatusUpdates(f: Frame, i: int, c: Lifecycle.StatusCall)
    requires 0 <= i < |f.rows|
    ensures LatestSignature(Lifecycle.AfterUpdate(f, i, c)) == LatestSignature(f)
  {
    var g := Lifecycle.AfterUpdate(f, i, c);
    assert ColumnText(g.rows, "created_at") == ColumnText(f.rows, "created_at");
    assert ColumnText(g.rows, "id") == ColumnText(f.rows, "id");
  }

  /** The largest creation time holds no bar when no creation time does. */
  lemma MaxCreatedNoBar(f: Frame)
    requires f.rows != [] && "created_at" in f.columns
    requires forall i :: 0 <= i < |f.rows| ==> '|' !in f.rows[i].createdAt
    ensures '|' !in ColumnMax(f, "created_at")
  {
    var m := ColumnMax(f, "created_at");
    var k :| 0 <= k < |f.rows| && ColumnText(f.rows, "created_at")[k] == m;
    assert Get(f.rows[k], "created_at") == f.rows[k].createdAt;
  }

  /** Appending a quest created after every other one moves the largest creation time. */
  lemma LaterQuestMovesMax(f: Frame, t: Ticket)
    requires f.rows != [] && "created_at" in f.columns
    requires !LexLe(t.createdAt, ColumnMax(f, "created_at"))
    ensures ColumnMax(Frame(f.columns, f.rows + [t]), "created_at") != ColumnMax(f, "created_at")
  {
    var g := Frame(f.columns, f.rows + [t]);
    assert Get(g.rows[|f.rows|], "created_at") == t.createdAt;
  }

  /** Appending a quest whose value in a column is not above the column's largest keeps that largest value. */
  lemma MaxUnmoved(f: Frame, t: Ticket, col: string)
    requires f.rows != [] && col in f.columns
    requires LexLe(Get(t, col), ColumnMax(f, col))
    ensures ColumnMax(Frame(f.columns, f.rows + [t]), col) == ColumnMax(f, col)
  {
    var g := Frame(f.columns, f.rows + [t]);
    var m := ColumnMax(f, col);
    var m' := ColumnMax(g, col);
    var k :| 0 <= k < |f.rows| && ColumnText(f.rows, col)[k] == m;
    assert g.rows[k] == f.rows[k];
    assert LexLe(m, m');
    assert forall i :: 0 <= i < |g.rows| ==> LexLe(Get(g.rows[i], col), m) by {
      forall i | 0 <= i < |g.rows|
        ensures LexLe(Get(g.rows[i], col), m)
      {
        if i < |f.rows| {
          assert g.rows[i] == f.rows[i];
        }
      }
    }
    var k' :| 0 <= k' < |g.rows| && ColumnText(g.rows, col)[k'] == m';
    LexLeAntisym(m, m');
  }

  /** Appending a quest whose id sorts after every other id moves the largest id. */
  lemma LaterIdMovesMax(f: Frame, t: Ticket)
    requires f.rows != [] && "id" in f.columns
    requires !LexLe(t.id, ColumnMax(f, "id"))
    ensures ColumnMax(Frame(f.columns, f.rows + [t]), "id") != ColumnMax(f, "id")
  {
    var g := Frame(f.columns, f.rows + [t]);
    assert Get(g.rows[|f.rows|], "id") == t.id;
  }

  /**
    A quest created no later than the latest one but whose id sorts after
    every other id changes the signature: the creation-time half stays, the
    id half moves.
   */
  lemma LaterIdChangesSignature(f: Frame, t: Ticket)
    requires !IsEmpty(f) && "created_at" in f.columns && "id" in f.columns
    requires LexLe(t.createdAt, ColumnMax(f, "created_at"))
    requires !LexLe(t.id, ColumnMax(f, "id"))
    ensures LatestSignature(Frame(f.columns, f.rows + [t])) != LatestSignature(f)
  {
    var g := Frame(f.columns, f.rows + [t]);
    MaxUnmoved(f, t, "created_at");
    LaterIdMovesMax(f, t);
    SamePrefixDiffers(ColumnMax(f, "created_at") + "|", ColumnMax(g, "id"), ColumnMax(f, "id"));
  }

  /** Texts with the same prefix differ when what follows it differs. */
  lemma SamePrefixDiffers(p: string, x: string, y: string)
    requires x != y
    ensures p + x != p + y
  {
    assert (p + x)[|p|..] == x && (p + y)[|p|..] == y;
  }

  /**
    A quest created later than every other (its `created_at` sorts after the
    current largest, none holding a `|`) changes the signature.
   */
  lemma LaterQuestChangesSignature(f: Frame, t: Ticket)
    requires !IsEmpty(f) && "created_at" in f.columns
    requires forall i :: 0 <= i < |f.rows| ==> '|' !in f.rows[i].createdAt
    requires '|' !in t.createdAt && !LexLe(t.createdAt, ColumnMax(f, "created_at"))
    ensures LatestSignature(Frame(f.columns, f.rows + [t])) != LatestSignature(f)
  {
    var g := Frame(f.columns, f.rows + [t]);
    assert forall i :: 0 <= i < |g.rows| ==> '|' !in g.rows[i].createdAt by {
      forall i | 0 <= i < |g.rows|
        ensures '|' !in g.rows[i].createdAt
      {
        if i < |f.rows| {
          assert g.rows[i] == f.rows[i];
        }
      }
    }
    MaxCreatedNoBar(f);
    MaxCreatedNoBar(g);
    LaterQuestMovesMax(f, t);
    if LatestSignature(g) == LatestSignature(f) {
      BarJoinLeft(ColumnMax(g, "created_at"), ColumnMax(g, "id"), ColumnMax(f, "created_at"), ColumnMax(f, "id"));
      assert false;
    }
  }

  /** The staleness rule: never refreshed counts as stale, otherwise at least 15 seconds since the last refresh. */
  function Stale(now: int, lastRefresh: int): (stale: bool)
    ensures lastRefresh <= 0 ==> stale
    ensures lastRefresh > 0 ==> (stale <==> now >= lastRefresh + RefreshTtlSeconds)
  {
    if lastRefresh > 0 then now - lastRefresh >= RefreshTtlSeconds else true
  }

  /** `str(st.session_state.get(key, ""))`. */
  function TextAt(state: map<string, Value>, key: string): string
  {
    if key in state then StrOf(state[key]) else ""
  }

  /** `float(st.session_state.get(key, 0.0))`, for the numbers the refresh stamp holds. */
  function NumAt(state: map<string, Value>, key: string): int
  {
    if key in state && state[key].Num? then state[key].n else 0
  }

  /** What `_has_new_quests` answers: the stored signature exists and differs from the latest. */
  function HasNew(state: map<string, Value>, sigKey: string, latest: string): (b: bool)
    ensures b ==> sigKey in state
    ensures TextAt(state, sigKey) == latest ==> !b
  {
    TextAt(state, sigKey) != "" && latest != TextAt(state, sigKey)
  }

  /** The session after `_has_new_quests`: the first check stores the latest signature. */
  function AfterCheck(state: map<string, Value>, sigKey: string, latest: string): (s: map<string, Value>)
    ensures s.Keys == state.Keys + {sigKey}
    ensures forall k :: k in state && k != sigKey ==> s[k] == state[k]
    ensures TextAt(state, sigKey) != "" ==> s == state
    ensures TextAt(s, sigKey) != "" || latest == ""
  {
    if TextAt(state, sigKey) == "" then state[sigKey := Str(latest)] else state
  }

  /** The first check of a screen stores the signature, reports nothing, and the next check on the same table reports nothing. */
  lemma FirstCheckStores(state: map<string, Value>, sigKey: string, f: Frame)
    requires sigKey !in state
    ensures !HasNew(state, sigKey, LatestSignature(f))
    ensures AfterCheck(state, sigKey, LatestSignature(f)) == state[sigKey := Str(LatestSignature(f))]
    ensures !HasNew(AfterCheck(state, sigKey, LatestSignature(f)), sigKey, LatestSignature(f))
  {
    SignatureEmptyIff(f);
  }

  /** After marking the table seen, a check on the same table reports nothing; on a table whose signature differs it reports new quests. */
  lemma MarkSeenThenCheck(state: map<string, Value>, sigKey: string, f: Frame, g: Frame)
    ensures !HasNew(state[sigKey := Str(LatestSignature(f))], sigKey, LatestSignature(f))
    ensures HasNew(state[sigKey := Str(LatestSignature(f))], sigKey, LatestSignature(g)) <==>
            LatestSignature(g) != LatestSignature(f)
  {
    SignatureEmptyIff(f);
  }

  /** The session after a click on the refresh button: signature marked seen, refresh stamped, tab set only if absent. */
  function AfterClick(state: map<string, Value>, sigKey: string, tsKey: string, tabKey: string,
                      latest: string, now: int, pickedTab: string): (s: map<string, Value>)
    ensures s.Keys == state.Keys + {sigKey, tsKey, tabKey}
    ensures forall k :: k in state && k != sigKey && k != tsKey && k != tabKey ==> s[k] == state[k]
    ensures sigKey != tsKey ==> s[sigKey] == Str(latest)
    ensures s[tsKey] == Num(now)
  {
    var s := state[sigKey := Str(latest)][tsKey := Num(now)];
    if tabKey in s then s else s[tabKey := Str(pickedTab)]
  }

  /** A click never moves a screen off the tab it is on, and a screen without a tab gets the picked one. */
  lemma ClickKeepsTab(state: map<string, Value>, sigKey: string, tsKey: string, tabKey: string,
                      latest: string, now: int, pickedTab: string)
    requires tabKey != sigKey && tabKey != tsKey
    ensures var s := AfterClick(state, sigKey, tsKey, tabKey, latest, now, pickedTab);
            tabKey in s &&
            s[tabKey] == (if tabKey in state then state[tabKey] else Str(pickedTab))
  {
  }

  /** A click leaves the screen fresh: within 15 seconds it is not stale, and it reports no new quests until the signature changes. */
  lemma ClickMakesFresh(state: map<string, Value>, sigKey: string, tsKey: string, tabKey: string,
                        f: Frame, now: int, later: int, pickedTab: string)
    requires sigKey != tsKey && tabKey != sigKey && tabKey != tsKey
    requires now > 0 && now <= later < now + RefreshTtlSeconds
    ensures var s := AfterClick(state, sigKey, tsKey, tabKey, LatestSignature(f), now, pickedTab);
            !Stale(later, NumAt(s, tsKey)) && !HasNew(s, sigKey, LatestSignature(f))
  {
    SignatureEmptyIff(f);
  }

  /** The session state of one browser session, and the refresh-button logic that reads and writes it. */
  class Session {
    var state: map<string, Value>

    constructor()
      ensures state == map[]
    {
      state := map[];
    }

    /** `_has_new_quests(sig_key)` against the table `f` the signature is taken from. */
    method HasNewQuests(sigKey: string, f: Frame) returns (b: bool)
      modifies this
      ensures b == HasNew(old(state), sigKey, LatestSignature(f))
      ensures state == AfterCheck(old(state), sigKey, LatestSignature(f))
    {
      var latest := LatestSignature(f);
      var lastSeen := if sigKey in state then StrOf(state[sigKey]) else "";
      if lastSeen == "" {
        state := state[sigKey := Str(latest)];
        return false;
      }
      return latest != lastSeen;
    }

    /** `_mark_seen(sig_key)`. */
    method MarkSeen(sigKey: string, f: Frame)
      modifies this
      ensures state == old(state)[sigKey := Str(LatestSignature(f))]
    {
      state := state[sigKey := Str(LatestSignature(f))];
    }

    /** The first visit of a screen picks its tab; later visits keep whatever tab it is on. */
    method InitTab(tabKey: string, pickedTab: string)
      modifies this
      ensures state == if tabKey in old(state) then old(state) else old(state)[tabKey := Str(pickedTab)]
    {
      if tabKey !in state {
        state := state[tabKey := Str(pickedTab)];
      }
    }

    /**
      The decision part of `render_refresh_widget`: the button shows when the
      screen is stale or the table has new quests; a click invalidates the
      sheet caches, marks the table seen, stamps the refresh time and sets
      the tab only when the screen has none. Returns whether it showed.
     */
    method RefreshWidget(ws: QuestSheet.Worksheet, f: Frame, now: int, sigKey: string, tsKey: string,
                         tabKey: string, pickedTab: string, clicked: bool) returns (shown: bool)
      requires ws.Valid()
      modifies this, ws
      ensures var checked := AfterCheck(old(state), sigKey, LatestSignature(f));
              shown == (Stale(now, NumAt(old(state), tsKey)) || HasNew(old(state), sigKey, LatestSignature(f))) &&
              state == (if shown && clicked
                        then AfterClick(checked, sigKey, tsKey, tabKey, LatestSignature(f), now, pickedTab)
                        else checked)
      ensures ws.rows == old(ws.rows) && ws.Valid()
      ensures ws.cache == if shown && clicked then None else old(ws.cache)
    {
      var last := NumAt(state, tsKey);
      var stale := if last > 0 then now - last >= RefreshTtlSeconds else true;
      var hasNew := HasNewQuests(sigKey, f);
      shown := stale || hasNew;
      if !shown {
        return;
      }
      if clicked {
        ws.Invalidate();
        MarkSeen(sigKey, f);
        state := state[tsKey := Num(now)];
        InitTab(tabKey, pickedTab);
      }
    }
  }
}
