/**
 * What the checks of the argument processor do to the token vector and the
 * store (src/cli.rs:257-270, 749-763, 852-932), stated as functions of the
 * state, with the lemmas that say what each one removes and that each keeps
 * Tokens.Wf. The processor's methods are proved against these functions.
 */
module Stream {
  import opened Wrappers
  import opened Tokens
  import opened Args

  // ---------------------------------------------------------------- pulling flags and their values

  /** The value that pulling the flag at `p` takes from the token right behind it. */
  function NextValue(tokens: seq<Option<Token>>, p: nat, withUarg: bool): Option<string>
  {
    if p + 1 < |tokens| && tokens[p + 1].Some? then
      match tokens[p + 1].value
      case AttachedArgument(_, s) => Some(s)
      case UnattachedArgument(_, s) => if withUarg then Some(s) else None
      case _ => None
    else None
  }

  predicate Distinct(locs: seq<nat>)
  {
    forall j, k :: 0 <= j < k < |locs| ==> locs[j] != locs[k]
  }

  /** Every position in `locs` holds a live flag, switch or bare `-`. */
  predicate AtFlags(tokens: seq<Option<Token>>, locs: seq<nat>)
  {
    forall k :: 0 <= k < |locs| ==> locs[k] < |tokens| && IsFlagish(tokens[locs[k]])
  }

  /** Position `j` is emptied by pulling `locs`: it is one of the flags or a value taken from behind one. */
  predicate Taken(tokens: seq<Option<Token>>, locs: seq<nat>, withUarg: bool, j: nat)
  {
    j in locs || (j > 0 && j - 1 in locs && NextValue(tokens, j - 1, withUarg).Some?)
  }

  /** The token vector once the flags at `locs` and the values behind them are taken. */
  function Pulled(tokens: seq<Option<Token>>, locs: seq<nat>, withUarg: bool): seq<Option<Token>>
  {
    seq(|tokens|, j requires 0 <= j < |tokens| => if Taken(tokens, locs, withUarg, j) then None else tokens[j])
  }

  /** The values pulling `locs` yields, one per location, in the order of `locs`. */
  function Values(tokens: seq<Option<Token>>, locs: seq<nat>, withUarg: bool): seq<Option<string>>
  {
    seq(|locs|, k requires 0 <= k < |locs| => NextValue(tokens, locs[k], withUarg))
  }

  /** The values of `locs[..k+1]` are those of `locs[..k]` and then the value behind `locs[k]`. */
  lemma ValuesSnoc(tokens: seq<Option<Token>>, locs: seq<nat>, k: nat, withUarg: bool)
    requires k < |locs|
    ensures Values(tokens, locs[..k + 1], withUarg) == Values(tokens, locs[..k], withUarg) + [NextValue(tokens, locs[k], withUarg)]
  {
  }

  lemma PulledNothing(tokens: seq<Option<Token>>, withUarg: bool)
    ensures Pulled(tokens, [], withUarg) == tokens
  {
  }

  /**
   * One step of `pull_flag`: emptying the flag at `locs[k]` and taking the value
   * behind it extends the pull of `locs[..k]` to `locs[..k+1]`, and the value
   * seen there is the value the ORIGINAL vector has behind that flag.
   */
  lemma PullStep(tokens: seq<Option<Token>>, locs: seq<nat>, k: nat, withUarg: bool)
    requires AtFlags(tokens, locs) && Distinct(locs) && k < |locs|
    ensures var cur := Pulled(tokens, locs[..k], withUarg)[locs[k] := None];
      NextValue(cur, locs[k], withUarg) == NextValue(tokens, locs[k], withUarg) &&
      Pulled(tokens, locs[..k + 1], withUarg) ==
        (if NextValue(tokens, locs[k], withUarg).Some? then cur[locs[k] + 1 := None] else cur)
  {
    var before := locs[..k];
    var after := locs[..k + 1];
    var loc := locs[k];
    assert after == before + [loc];
    assert forall j :: j in after <==> j in before || j == loc;
    assert loc !in before by {
      forall m | 0 <= m < k ensures before[m] != loc {
        assert before[m] == locs[m];
      }
    }
    var cur := Pulled(tokens, before, withUarg)[loc := None];
    if loc + 1 < |tokens| {
      if loc + 1 in before {
        var m :| 0 <= m < |before| && before[m] == loc + 1;
        assert before[m] == locs[m];
        assert IsFlagish(tokens[loc + 1]);
      } else {
        assert !Taken(tokens, before, withUarg, loc + 1);
        assert cur[loc + 1] == tokens[loc + 1];
      }
    }
    var want := if NextValue(tokens, loc, withUarg).Some? then cur[loc + 1 := None] else cur;
    var got := Pulled(tokens, after, withUarg);
    forall j | 0 <= j < |tokens| ensures got[j] == want[j] {
      if j - 1 == loc && j > 0 {
        assert j !in before || IsFlagish(tokens[j]);
      }
    }
  }

  /** Without `withUarg` a pull never takes a plain word. */
  lemma PullKeepsWords(tokens: seq<Option<Token>>, locs: seq<nat>)
    requires AtFlags(tokens, locs)
    ensures forall j :: 0 <= j < |tokens| && tokens[j].Some? && tokens[j].value.UnattachedArgument? ==>
      Pulled(tokens, locs, false)[j] == tokens[j]
  {
    forall j | 0 <= j < |tokens| && tokens[j].Some? && tokens[j].value.UnattachedArgument?
      ensures Pulled(tokens, locs, false)[j] == tokens[j]
    {
      assert forall m :: 0 <= m < |locs| ==> locs[m] != j;
      assert j !in locs;
    }
  }

  // ---------------------------------------------------------------- claiming a flag's slots

  /** The store keys of a flag: its long name and, if it has one, its switch. */
  function FlagTags(f: Flag): set<Tag>
  {
    {FlagTag(f.name)} + (if f.switch.Some? then {SwitchTag([f.switch.value])} else {})
  }

  /** `take_flag_locs` followed by `take_switch_locs`: the positions of the long form, then of the switch. */
  function FlagLocs(store: map<Tag, seq<nat>>, f: Flag): seq<nat>
  {
    Slot(store, FlagTag(f.name)) + (if f.switch.Some? then Slot(store, SwitchTag([f.switch.value])) else [])
  }

  /** The positions of a flag are distinct live flag tokens, and exactly the positions of its keys. */
  lemma FlagLocsFacts(tokens: seq<Option<Token>>, store: map<Tag, seq<nat>>, f: Flag)
    requires Wf(tokens, store)
    ensures Distinct(FlagLocs(store, f)) && AtFlags(tokens, FlagLocs(store, f))
    ensures forall p :: p in FlagLocs(store, f) <==> exists t :: t in FlagTags(f) && t in store && p in store[t]
  {
    FlagLocsDistinct(tokens, store, f);
    FlagLocsAtFlags(tokens, store, f);
    FlagLocsMembers(store, f);
  }

  lemma FlagLocsDistinct(tokens: seq<Option<Token>>, store: map<Tag, seq<nat>>, f: Flag)
    requires SlotsWf(tokens, store) && Disjoint(store)
    ensures Distinct(FlagLocs(store, f))
  {
    var a := Slot(store, FlagTag(f.name));
    var b := if f.switch.Some? then Slot(store, SwitchTag([f.switch.value])) else [];
    var locs := a + b;
    forall j, k | 0 <= j < k < |locs| ensures locs[j] != locs[k] {
      if k < |a| {
        assert Ascending(store[FlagTag(f.name)]);
      } else if j >= |a| {
        assert locs[j] == b[j - |a|] && locs[k] == b[k - |a|];
        assert Ascending(store[SwitchTag([f.switch.value])]);
      } else {
        assert locs[k] == b[k - |a|];
        assert locs[j] in store[FlagTag(f.name)];
        assert locs[k] in store[SwitchTag([f.switch.value])];
      }
    }
  }

  lemma FlagLocsAtFlags(tokens: seq<Option<Token>>, store: map<Tag, seq<nat>>, f: Flag)
    requires SlotsWf(tokens, store)
    ensures AtFlags(tokens, FlagLocs(store, f))
  {
    var a := Slot(store, FlagTag(f.name));
    var b := if f.switch.Some? then Slot(store, SwitchTag([f.switch.value])) else [];
    var locs := a + b;
    forall k | 0 <= k < |locs| ensures locs[k] < |tokens| && IsFlagish(tokens[locs[k]]) {
      if k < |a| {
        assert locs[k] in store[FlagTag(f.name)];
      } else {
        assert locs[k] == b[k - |a|];
        assert locs[k] in store[SwitchTag([f.switch.value])];
      }
    }
  }

  lemma FlagLocsMembers(store: map<Tag, seq<nat>>, f: Flag)
    ensures forall p :: p in FlagLocs(store, f) <==> exists t :: t in FlagTags(f) && t in store && p in store[t]
  {
  }

  /**
   * After all positions of a slot are emptied, no slot refers to them any more:
   * the general shape every check's update has.
   */
  lemma ShrinkWf(tokens: seq<Option<Token>>, store: map<Tag, seq<nat>>,
                 tokens': seq<Option<Token>>, store': map<Tag, seq<nat>>)
    requires Wf(tokens, store)
    requires |tokens'| == |tokens| && forall j :: 0 <= j < |tokens| ==> tokens'[j] == tokens[j] || tokens'[j].None?
    requires forall t :: t in store' ==> t in store && store'[t] == store[t]
    requires forall t, p :: t in store' && p in store'[t] ==> tokens'[p] == tokens[p]
    requires forall t, p :: t in store && t !in store' && p in store[t] ==> p < |tokens| && tokens'[p].None?
    requires forall t, k :: 0 <= t < k < |tokens'| && IsTerminatorSlot(tokens'[t]) ==> tokens'[k] == tokens[k]
    requires forall p :: 0 < p < |tokens'| && tokens'[p].Some? && tokens'[p].value.AttachedArgument? ==>
      tokens'[p - 1] == tokens[p - 1]
    ensures Wf(tokens', store')
  {
    forall p | 0 <= p < |tokens'| && IsFlagish(tokens'[p]) ensures exists t :: t in store' && p in store'[t] {
      assert tokens'[p] == tokens[p];
      var t :| t in store && p in store[t];
      assert t in store';
    }
  }

  lemma ClaimSurvivors(tokens: seq<Option<Token>>, store: map<Tag, seq<nat>>, f: Flag, withUarg: bool)
    requires Wf(tokens, store)
    ensures var ts := Pulled(tokens, FlagLocs(store, f), withUarg);
      (forall t, p :: t in store - FlagTags(f) && p in (store - FlagTags(f))[t] ==> ts[p] == tokens[p]) &&
      (forall t, p :: t in store && t !in store - FlagTags(f) && p in store[t] ==> p < |tokens| && ts[p].None?)
  {
    var locs := FlagLocs(store, f);
    var ts := Pulled(tokens, locs, withUarg);
    var st := store - FlagTags(f);
    FlagLocsFacts(tokens, store, f);
    forall t, p | t in st && p in st[t] ensures ts[p] == tokens[p] {
      assert p !in locs;
      assert IsFlagish(tokens[p]);
    }
    forall t, p | t in store && t !in st && p in store[t] ensures p < |tokens| && ts[p].None? {
      assert p in locs;
    }
  }

  /** Pulling flags leaves whatever follows a live terminator as it was. */
  lemma PullBehindTerminator(tokens: seq<Option<Token>>, locs: seq<nat>, withUarg: bool)
    requires AfterTerminator(tokens) && AtFlags(tokens, locs)
    ensures var ts := Pulled(tokens, locs, withUarg);
      forall t, k :: 0 <= t < k < |ts| && IsTerminatorSlot(ts[t]) ==> ts[k] == tokens[k]
  {
    var ts := Pulled(tokens, locs, withUarg);
    forall t, k | 0 <= t < k < |ts| && IsTerminatorSlot(ts[t]) ensures ts[k] == tokens[k] {
      assert tokens[t] == ts[t];
      assert !IsFlagish(tokens[k]) && !IsFlagish(tokens[k - 1]);
      assert forall m :: 0 <= m < |locs| ==> locs[m] != k && locs[m] != k - 1;
    }
  }

  /** Pulling flags never separates a surviving attached value from the token before it. */
  lemma PullKeepsAttached(tokens: seq<Option<Token>>, locs: seq<nat>, withUarg: bool)
    requires AttachedFollows(tokens) && AtFlags(tokens, locs)
    ensures var ts := Pulled(tokens, locs, withUarg);
      forall p :: 0 < p < |ts| && ts[p].Some? && ts[p].value.AttachedArgument? ==> ts[p - 1] == tokens[p - 1]
  {
    var ts := Pulled(tokens, locs, withUarg);
    forall p | 0 < p < |ts| && ts[p].Some? && ts[p].value.AttachedArgument? ensures ts[p - 1] == tokens[p - 1] {
      assert ts[p] == tokens[p];
      assert NextValue(tokens, p - 1, withUarg).Some?;
      assert p - 1 !in locs;
      assert !Taken(tokens, locs, withUarg, p - 1);
    }
  }

  /** Claiming a flag (taking its slots out of the store and pulling them) keeps the state well formed. */
  lemma ClaimWf(tokens: seq<Option<Token>>, store: map<Tag, seq<nat>>, f: Flag, withUarg: bool)
    requires Wf(tokens, store)
    ensures Wf(Pulled(tokens, FlagLocs(store, f), withUarg), store - FlagTags(f))
  {
    ClaimSurvivors(tokens, store, f, withUarg);
    FlagLocsFacts(tokens, store, f);
    PullBehindTerminator(tokens, FlagLocs(store, f), withUarg);
    PullKeepsAttached(tokens, FlagLocs(store, f), withUarg);
    ShrinkWf(tokens, store, Pulled(tokens, FlagLocs(store, f), withUarg), store - FlagTags(f));
  }

  // ---------------------------------------------------------------- serving plain words

  /** Where `next_uarg` stops: a live plain word or a live terminator. */
  predicate IsStop(t: Option<Token>)
  {
    t.Some? && (t.value.UnattachedArgument? || t.value.Terminator?)
  }

  /** The first position where `next_uarg` stops. */
  function FirstStop(tokens: seq<Option<Token>>): (r: Option<nat>)
    ensures r.None? ==> forall q :: 0 <= q < |tokens| ==> !IsStop(tokens[q])
    ensures r.Some? ==>
      r.value < |tokens| && IsStop(tokens[r.value]) && forall q :: 0 <= q < r.value ==> !IsStop(tokens[q])
  {
    if |tokens| == 0 then None
    else if IsStop(tokens[0]) then Some(0)
    else
      match FirstStop(tokens[1..])
      case None => None
      case Some(q) => Some(q + 1)
  }

  /** The plain words `next_uarg` will serve, in order: the live words before the first live terminator. */
  function Words(tokens: seq<Option<Token>>): seq<string>
  {
    if |tokens| == 0 then []
    else
      match tokens[0]
      case Some(UnattachedArgument(_, s)) => [s] + Words(tokens[1..])
      case Some(Terminator(_)) => []
      case _ => Words(tokens[1..])
  }

  /** `next_uarg` serves the first of the words, and what remains is the rest of them. */
  lemma {:induction false} NextWord(tokens: seq<Option<Token>>)
    ensures FirstStop(tokens).None? ==> Words(tokens) == []
    ensures FirstStop(tokens).Some? && tokens[FirstStop(tokens).value].value.Terminator? ==> Words(tokens) == []
    ensures FirstStop(tokens).Some? && tokens[FirstStop(tokens).value].value.UnattachedArgument? ==>
      Words(tokens) == [tokens[FirstStop(tokens).value].value.text] + Words(tokens[FirstStop(tokens).value := None])
    decreases |tokens|
  {
    if |tokens| > 0 {
      if IsStop(tokens[0]) {
        if tokens[0].value.UnattachedArgument? {
          assert tokens[0 := None][1..] == tokens[1..];
        }
      } else {
        NextWord(tokens[1..]);
        var r := FirstStop(tokens[1..]);
        if r.Some? {
          assert tokens[r.value + 1 := None][1..] == tokens[1..][r.value := None];
        }
      }
    }
  }

  /** Before the terminator and after it: plain words can only be served while some are live. */
  lemma WordsIff(tokens: seq<Option<Token>>)
    requires AfterTerminator(tokens)
    ensures Words(tokens) != [] <==> exists k :: 0 <= k < |tokens| && tokens[k].Some? && tokens[k].value.UnattachedArgument?
    ensures Words(tokens) != [] ==> tokens[FirstStop(tokens).value].value.UnattachedArgument?
  {
    NextWord(tokens);
    if exists k :: 0 <= k < |tokens| && tokens[k].Some? && tokens[k].value.UnattachedArgument? {
      var k :| 0 <= k < |tokens| && tokens[k].Some? && tokens[k].value.UnattachedArgument?;
      var p := FirstStop(tokens).value;
      assert p <= k;
      assert tokens[p].value.UnattachedArgument?;
    }
  }

  /** Taking a plain word out of the vector keeps the state well formed. */
  lemma TakeWordWf(tokens: seq<Option<Token>>, store: map<Tag, seq<nat>>, p: nat)
    requires Wf(tokens, store) && p < |tokens| && tokens[p].Some? && tokens[p].value.UnattachedArgument?
    ensures Wf(tokens[p := None], store)
  {
    var ts := tokens[p := None];
    forall t, k | 0 <= t < k < |ts| && IsTerminatorSlot(ts[t]) ensures ts[k] == tokens[k] {
      assert tokens[t] == ts[t];
    }
    ShrinkWf(tokens, store, ts, store);
  }

  // ---------------------------------------------------------------- the remainder after `--`

  /** The first position of a live terminator. */
  function FirstTerminator(tokens: seq<Option<Token>>): (r: Option<nat>)
    ensures r.None? ==> forall q :: 0 <= q < |tokens| ==> !IsTerminatorSlot(tokens[q])
    ensures r.Some? ==>
      r.value < |tokens| && IsTerminatorSlot(tokens[r.value]) && forall q :: 0 <= q < r.value ==> !IsTerminatorSlot(tokens[q])
  {
    if |tokens| == 0 then None
    else if IsTerminatorSlot(tokens[0]) then Some(0)
    else
      match FirstTerminator(tokens[1..])
      case None => None
      case Some(q) => Some(q + 1)
  }

  /** The texts of the live ignored tokens, in order. */
  function IgnoreTexts(tokens: seq<Option<Token>>): seq<string>
    decreases |tokens|
  {
    if |tokens| == 0 then []
    else
      var last := tokens[|tokens| - 1];
      IgnoreTexts(tokens[..|tokens| - 1]) + (if last.Some? && last.value.Ignore? then [last.value.text] else [])
  }

  /** `n` emptied positions. */
  function Nones(n: nat): (r: seq<Option<Token>>)
    ensures |r| == n && forall k :: 0 <= k < n ==> r[k].None?
  {
    seq(n, k => None)
  }

  /** Whether `check_remainder` meets a value attached to the terminator (`--=value`). */
  predicate StrayValueAt(tokens: seq<Option<Token>>, t: nat)
  {
    t + 1 < |tokens| && tokens[t + 1].Some? && tokens[t + 1].value.AttachedArgument?
  }

  /** Draining the remainder keeps the state well formed. */
  lemma RemainderWf(tokens: seq<Option<Token>>, store: map<Tag, seq<nat>>, t: nat)
    requires Wf(tokens, store) && FirstTerminator(tokens) == Some(t)
    ensures StrayValueAt(tokens, t) ==>
      Wf(tokens[t := None][t + 1 := None], store) && FirstTerminator(tokens[t := None][t + 1 := None]) == None
    ensures !StrayValueAt(tokens, t) ==>
      Wf(tokens[..t] + Nones(|tokens| - t), store) && FirstTerminator(tokens[..t] + Nones(|tokens| - t)) == None
  {
    var ts := if StrayValueAt(tokens, t) then tokens[t := None][t + 1 := None] else tokens[..t] + Nones(|tokens| - t);
    forall k | 0 <= k < |ts| ensures ts[k] == tokens[k] || ts[k].None? {
    }
    forall u, p | u in store && p in store[u] ensures ts[p] == tokens[p] {
      assert IsFlagish(tokens[p]);
    }
    assert forall u :: 0 <= u < |ts| ==> !IsTerminatorSlot(ts[u]);
    forall p | 0 < p < |ts| && ts[p].Some? && ts[p].value.AttachedArgument? ensures ts[p - 1] == tokens[p - 1] {
      assert ts[p] == tokens[p];
      assert p < t;
    }
    ShrinkWf(tokens, store, ts, store);
  }

  // ---------------------------------------------------------------- the leftmost remaining slot

  /** The first position recorded under a key (0 for a key that has none). */
  function First(store: map<Tag, seq<nat>>, t: Tag): nat
  {
    if t in store && |store[t]| > 0 then store[t][0] else 0
  }

  /** The keys whose first occurrence lies before `breakpoint`. */
  function Before(store: map<Tag, seq<nat>>, breakpoint: nat): set<Tag>
  {
    set t | t in store && First(store, t) < breakpoint
  }

  /** `t` is the key among `cands` whose first occurrence comes first. */
  predicate IsLeftmost(store: map<Tag, seq<nat>>, cands: set<Tag>, t: Tag)
  {
    t in cands && forall u :: u in cands ==> First(store, t) <= First(store, u)
  }

  /** With disjoint non-empty slots the leftmost key is unique, whatever order the keys are visited in. */
  lemma LeftmostUnique(tokens: seq<Option<Token>>, store: map<Tag, seq<nat>>, cands: set<Tag>, t: Tag, u: Tag)
    requires SlotsWf(tokens, store) && Disjoint(store)
    requires cands <= store.Keys
    requires IsLeftmost(store, cands, t) && IsLeftmost(store, cands, u)
    ensures t == u
  {
    assert First(store, t) == First(store, u);
    assert store[t][0] in store[t] && store[u][0] in store[u];
  }

  /** Every finite non-empty set of keys has a leftmost one. */
  lemma {:induction false} LeftmostExists(store: map<Tag, seq<nat>>, cands: set<Tag>)
    requires cands != {}
    ensures exists t :: IsLeftmost(store, cands, t)
    decreases |cands|
  {
    var t :| t in cands;
    var rest := cands - {t};
    if rest == {} {
      assert cands == {t};
      assert IsLeftmost(store, cands, t);
    } else {
      LeftmostExists(store, rest);
      var u :| IsLeftmost(store, rest, u);
      if First(store, t) <= First(store, u) {
        assert IsLeftmost(store, cands, t);
      } else {
        assert IsLeftmost(store, cands, u);
      }
    }
  }

  /** The leftmost key of a non-empty set of keys (unique under Wf, by LeftmostUnique). */
  ghost function LeftmostOf(store: map<Tag, seq<nat>>, cands: set<Tag>): (t: Tag)
    requires cands != {}
    ensures IsLeftmost(store, cands, t)
  {
    LeftmostExists(store, cands);
    var t :| IsLeftmost(store, cands, t);
    t
  }

  /** `take_flag_locs` then `take_switch_locs` yield the flag's positions and remove exactly its keys. */
  lemma TakeBoth(store: map<Tag, seq<nat>>, f: Flag)
    ensures f.switch.None? ==> store - {FlagTag(f.name)} == store - FlagTags(f)
    ensures f.switch.None? ==> FlagLocs(store, f) == Slot(store, FlagTag(f.name))
    ensures f.switch.Some? ==> store - {FlagTag(f.name)} - {SwitchTag([f.switch.value])} == store - FlagTags(f)
    ensures f.switch.Some? ==>
      FlagLocs(store, f) == Slot(store, FlagTag(f.name)) + Slot(store - {FlagTag(f.name)}, SwitchTag([f.switch.value]))
  {
  }

  /** Once a flag's keys are taken, asking for the same flag again finds no position. */
  lemma ClaimTwice(store: map<Tag, seq<nat>>, f: Flag)
    ensures FlagLocs(store - FlagTags(f), f) == []
  {
  }

  /** The values of a flag come from its long form first, in order, then from its switch. */
  lemma FlagValuesOrder(tokens: seq<Option<Token>>, store: map<Tag, seq<nat>>, f: Flag, withUarg: bool)
    ensures Values(tokens, FlagLocs(store, f), withUarg) ==
      Values(tokens, Slot(store, FlagTag(f.name)), withUarg) +
      (if f.switch.Some? then Values(tokens, Slot(store, SwitchTag([f.switch.value])), withUarg) else [])
  {
  }

  // ---------------------------------------------------------------- what is left

  /** The first live position, as `iter().find(|p| p.is_some())` finds it. */
  function FirstLive(tokens: seq<Option<Token>>): (r: Option<nat>)
    ensures r.None? ==> forall q :: 0 <= q < |tokens| ==> tokens[q].None?
    ensures r.Some? ==> r.value < |tokens| && tokens[r.value].Some? && forall q :: 0 <= q < r.value ==> tokens[q].None?
  {
    if |tokens| == 0 then None
    else if tokens[0].Some? then Some(0)
    else
      match FirstLive(tokens[1..])
      case None => None
      case Some(q) => Some(q + 1)
  }

  /** Every key of a well-formed store has a first position, and it lies inside the vector. */
  lemma FirstInside(tokens: seq<Option<Token>>, store: map<Tag, seq<nat>>, t: Tag)
    requires SlotsWf(tokens, store) && t in store
    ensures First(store, t) in store[t] && First(store, t) < |tokens| && IsFlagish(tokens[First(store, t)])
    ensures forall q :: q in store[t] ==> First(store, t) <= q
  {
    assert store[t][0] in store[t];
    forall q | q in store[t] ensures First(store, t) <= q {
      var m :| 0 <= m < |store[t]| && store[t][m] == q;
      assert m == 0 || store[t][0] < store[t][m];
    }
  }

  /** With the store exhausted, the first live token is a plain word, a terminator or an ignored argument. */
  lemma FirstLiveKind(tokens: seq<Option<Token>>, store: map<Tag, seq<nat>>)
    requires Wf(tokens, store) && Before(store, |tokens|) == {} && FirstLive(tokens).Some?
    ensures var t := tokens[FirstLive(tokens).value].value;
      t.UnattachedArgument? || t.Terminator? || t.Ignore?
  {
    var p := FirstLive(tokens).value;
    AllBefore(tokens, store);
    assert p > 0 ==> tokens[p - 1].None?;
  }

  /** In a well-formed store every key's first position is inside the vector. */
  lemma AllBefore(tokens: seq<Option<Token>>, store: map<Tag, seq<nat>>)
    requires SlotsWf(tokens, store)
    ensures store.Keys == Before(store, |tokens|)
  {
    forall u | u in store ensures u in Before(store, |tokens|) {
      FirstInside(tokens, store, u);
    }
  }

  /** With the store exhausted nothing flag-like is left; with nothing live the store is exhausted. */
  lemma StoreExhausted(tokens: seq<Option<Token>>, store: map<Tag, seq<nat>>)
    requires Wf(tokens, store)
    ensures (forall q :: 0 <= q < |tokens| ==> tokens[q].None?) ==> Before(store, |tokens|) == {}
  {
    AllBefore(tokens, store);
    forall u | u in store ensures tokens[First(store, u)].Some? {
      FirstInside(tokens, store, u);
    }
  }

  // ---------------------------------------------------------------- the command word

  /** Where the command word of `match_command` lies: the position `next_uarg` takes it from. */
  function CommandPosition(tokens: seq<Option<Token>>): (p: nat)
    requires Words(tokens) != []
    ensures p < |tokens| && tokens[p].Some? && tokens[p].value.UnattachedArgument?
    ensures FirstStop(tokens) == Some(p) && tokens[p].value.text == Words(tokens)[0]
  {
    NextWord(tokens);
    FirstStop(tokens).value
  }

  /**
   * The breakpoint `match_command` passes as written: the ORIGIN index of the
   * first plain word (`find_map` over the tokens, src/cli.rs:307-314).
   */
  function FirstWordOrigin(tokens: seq<Option<Token>>): (r: Option<nat>)
    ensures r.None? <==> forall q :: 0 <= q < |tokens| ==> !(tokens[q].Some? && tokens[q].value.UnattachedArgument?)
    ensures r.Some? ==> exists q :: (0 <= q < |tokens| && tokens[q].Some? && tokens[q].value.UnattachedArgument? &&
      tokens[q].value.index == r.value && forall j :: 0 <= j < q ==> !(tokens[j].Some? && tokens[j].value.UnattachedArgument?))
  {
    if |tokens| == 0 then None
    else if tokens[0].Some? && tokens[0].value.UnattachedArgument? then Some(tokens[0].value.index)
    else
      var r := FirstWordOrigin(tokens[1..]);
      assert forall q :: 0 < q < |tokens| ==> tokens[q] == tokens[1..][q - 1];
      r
  }

  /** A live flag whose argument precedes the command's lies before the command in the vector. */
  predicate FlagBeforeCommand(tokens: seq<Option<Token>>, q: int)
    requires Words(tokens) != []
  {
    0 <= q < |tokens| && IsFlagish(tokens[q]) && tokens[q].value.index < tokens[CommandPosition(tokens)].value.index
  }

  lemma LeftoverIsEarlier(tokens: seq<Option<Token>>, store: map<Tag, seq<nat>>, u: Tag)
    requires Wf(tokens, store) && Words(tokens) != [] && u in Before(store, CommandPosition(tokens))
    ensures FlagBeforeCommand(tokens, First(store, u))
  {
    FirstInside(tokens, store, u);
  }

  lemma EarlierIsLeftover(tokens: seq<Option<Token>>, store: map<Tag, seq<nat>>, q: int)
    requires Wf(tokens, store) && Words(tokens) != [] && FlagBeforeCommand(tokens, q)
    ensures Before(store, CommandPosition(tokens)) != {}
  {
    var p := CommandPosition(tokens);
    assert q < p;
    var u :| u in store && q in store[u];
    FirstInside(tokens, store, u);
    assert u in Before(store, p);
  }

  /**
   * With the command's POSITION as breakpoint, a key is found exactly when
   * some flag, switch or bare `-` that is still live was given in an argument
   * before the command.
   */
  lemma LeftoverBeforeCommand(tokens: seq<Option<Token>>, store: map<Tag, seq<nat>>)
    requires Wf(tokens, store) && Words(tokens) != []
    ensures Before(store, CommandPosition(tokens)) != {} <==> exists q :: FlagBeforeCommand(tokens, q)
  {
    if Before(store, CommandPosition(tokens)) != {} {
      var u :| u in Before(store, CommandPosition(tokens));
      LeftoverIsEarlier(tokens, store, u);
    }
    if exists q :: FlagBeforeCommand(tokens, q) {
      var q :| FlagBeforeCommand(tokens, q);
      EarlierIsLeftover(tokens, store, q);
    }
  }
}
