/**
 * The argument processor (src/cli.rs): a token vector and a store built once
 * by the tokenizer, then consumed query by query; a ledger of the arguments
 * asked for; the help descriptor and the help latch; and the threshold that
 * switches spelling suggestions on.
 *
 * Every method keeps `Valid()` (Tokens.Wf of the vector and the store) and
 * states its new state in terms of the functions of module Stream.
 */
module Processor {
  import opened Wrappers
  import opened Args
  import opened Tokens
  import opened Stream
  import opened Ledger
  import HD = HelpDesc
  import E = Errors

  /**
   * The spelling-suggestion routine (`seqalin::sel_min_edit_str`): given a
   * word, a bank and a threshold it may propose a word, and what it proposes
   * is always a word of the bank.
   */
  type Suggester = f: (string, seq<string>, nat) -> Option<string> |
    forall w, bank, t :: f(w, bank, t).Some? ==> f(w, bank, t).value in bank
    witness (w: string, bank: seq<string>, t: nat) => None

  /** A conversion from text (`FromStr`); its error is kept as a message. */
  type Parser<T> = string -> Result<T, string>

  /**
   * The body of the tokenizer's loop (src/cli.rs:104-168): the tokens and
   * store entries of the argument at origin `i`.
   */
  method LexArgument(ts: seq<Option<Token>>, st: map<Tag, seq<nat>>, terminated: bool, i: nat, arg: string)
    returns (ts': seq<Option<Token>>, st': map<Tag, seq<nat>>, terminated': bool)
    ensures Lexed(ts', st', terminated') == LexArg(Lexed(ts, st, terminated), i, arg)
  {
    ts', st', terminated' := ts, st, terminated;
    ghost var s0 := Lexed(ts, st, terminated || IsTerminatorArg(arg));
    ghost var es: seq<Entry>;
    if terminated {
      ts' := ts' + [Some(Ignore(i, arg))];
      es := [Entry(Ignore(i, arg), None)];
      RegisterSnoc(s0, [], es[0]);
    } else if StartsWith(arg, SWITCH) {
      var split := SplitOnce(arg, '=');
      DashedOptionPart(arg);
      var opt := split.0;
      ts', st', terminated' := LexOption(ts', st', i, opt);
      es := OptionEntries(i, opt);
      assert terminated' == s0.terminated;
      if split.1.Some? {
        ts' := ts' + [Some(AttachedArgument(i, split.1.value))];
        RegisterSnoc(s0, es, Entry(AttachedArgument(i, split.1.value), None));
        es := es + [Entry(AttachedArgument(i, split.1.value), None)];
      }
    } else {
      ts' := ts' + [Some(UnattachedArgument(i, arg))];
      es := [Entry(UnattachedArgument(i, arg), None)];
      RegisterSnoc(s0, [], es[0]);
    }
    assert es == ArgEntries(i, arg, terminated);
  }

  /** The part of a dashed argument before its first `=`: a terminator, a long flag, or switches. */
  method LexOption(ts: seq<Option<Token>>, st: map<Tag, seq<nat>>, i: nat, opt: string)
    returns (ts': seq<Option<Token>>, st': map<Tag, seq<nat>>, terminated: bool)
    requires StartsWith(opt, SWITCH)
    ensures terminated == (opt == FLAG)
    ensures Lexed(ts', st', terminated) == Register(Lexed(ts, st, terminated), OptionEntries(i, opt))
  {
    ts', st', terminated := ts, st, false;
    assert StartsWith(FLAG, FLAG);
    if StartsWith(opt, FLAG) {
      ghost var e: Entry;
      if |opt| == 2 {
        assert opt == opt[..2];
        e := Entry(Terminator(i), None);
        ts' := ts' + [Some(Terminator(i))];
        terminated := true;
      } else {
        var tag := FlagTag(opt[2..]);
        e := Entry(FlagToken(i), Some(tag));
        st' := st'[tag := Slot(st', tag) + [|ts'|]];
        ts' := ts' + [Some(FlagToken(i))];
      }
      assert OptionEntries(i, opt) == [e];
      assert [] + [e] == [e];
      RegisterSnoc(Lexed(ts, st, terminated), [], e);
      assert Push(Lexed(ts, st, terminated), e) == Lexed(ts', st', terminated);
    } else {
      ts', st' := LexSwitches(ts, st, i, opt[1..]);
    }
  }

  /**
   * Records the next token under `tag` and pushes it: the
   * `store.entry(tag).or_insert(..).push(tokens.len())` then `tokens.push(..)`
   * pair of the tokenizer (src/cli.rs:127-131, 140-152, 154-158).
   */
  method PushKeyed(ts: seq<Option<Token>>, st: map<Tag, seq<nat>>, tok: Token, tag: Tag)
    returns (ts': seq<Option<Token>>, st': map<Tag, seq<nat>>)
    ensures Lexed(ts', st', false) == Push(Lexed(ts, st, false), Entry(tok, Some(tag)))
  {
    st' := st[tag := Slot(st, tag) + [|ts|]];
    ts' := ts + [Some(tok)];
  }

  /** `-abc` (here `cs` is `abc`): one switch per character, or EmptySwitch for a bare `-`. */
  method LexSwitches(ts: seq<Option<Token>>, st: map<Tag, seq<nat>>, i: nat, cs: string)
    returns (ts': seq<Option<Token>>, st': map<Tag, seq<nat>>)
    ensures Lexed(ts', st', false) == Register(Lexed(ts, st, false), SwitchEntries(i, cs))
  {
    ghost var s0 := Lexed(ts, st, false);
    ghost var all := SwitchEntries(i, cs);
    SwitchEntriesAt(i, cs);
    ghost var es := all[..1];
    assert es == [all[0]] == [] + [all[0]];
    RegisterSnoc(s0, [], all[0]);
    if |cs| > 0 {
      ts', st' := PushKeyed(ts, st, SwitchToken(i, cs[0]), SwitchTag([cs[0]]));
    } else {
      ts', st' := PushKeyed(ts, st, EmptySwitch(i), SwitchTag(""));
    }
    var j := 1;
    while j < |cs|
      invariant 1 <= j && (|cs| == 0 || j <= |cs|) && j <= |all|
      invariant es == all[..j]
      invariant Lexed(ts', st', false) == Register(s0, es)
    {
      assert all[j] == Entry(SwitchToken(i, cs[j]), Some(SwitchTag([cs[j]])));
      ts', st' := PushKeyed(ts', st', SwitchToken(i, cs[j]), SwitchTag([cs[j]]));
      RegisterSnoc(s0, es, all[j]);
      assert all[..j + 1] == all[..j] + [all[j]];
      es := es + [all[j]];
      j := j + 1;
    }
    assert es == all;
  }

  /**
   * The conversion loop of `check_option_all` (src/cli.rs:605-633): converts
   * the pulled values in order and stops at the first one that is missing or
   * does not convert.
   */
  method ConvertAll<T>(values: seq<Option<string>>, parse: Parser<T>) returns (res: Parsed<T>)
    ensures res == ParseAll(values, parse)
  {
    var transform: seq<T> := [];
    var k := 0;
    while k < |values|
      invariant 0 <= k <= |values| && |transform| == k
      invariant forall j :: 0 <= j < k ==> Parses(values[j], parse) && parse(values[j].value) == Ok(transform[j])
    {
      if values[k].Some? {
        var result := parse(values[k].value);
        if result.Err? {
          ParseAllFailure(values, parse, k);
          return Unparsable(values[k].value, result.error);
        }
        transform := transform + [result.value];
      } else {
        ParseAllFailure(values, parse, k);
        return MissingValue;
      }
      k := k + 1;
    }
    var items := ParseAll(values, parse).items;
    assert forall j :: 0 <= j < |values| ==> Ok(items[j]) == parse(values[j].value);
    assert items == transform;
    res := AllParsed(transform);
  }

  /** The `skip_while` of `check_remainder` (src/cli.rs:886-890): the first live terminator, or the end. */
  method SkipToTerminator(tokens: seq<Option<Token>>) returns (t: nat)
    ensures t <= |tokens|
    ensures t == |tokens| ==> FirstTerminator(tokens) == None
    ensures t < |tokens| ==> FirstTerminator(tokens) == Some(t)
  {
    t := 0;
    while t < |tokens| && !IsTerminatorSlot(tokens[t])
      invariant 0 <= t <= |tokens|
      invariant forall q :: 0 <= q < t ==> !IsTerminatorSlot(tokens[q])
    {
      t := t + 1;
    }
  }

  /**
   * The drain of `check_remainder` (src/cli.rs:891-910), from the live
   * terminator at `t` on: every token is taken and the ignored texts are
   * collected, until a value attached to the terminator stops it.
   */
  method DrainRemainder(tokens: seq<Option<Token>>, t: nat) returns (ts: seq<Option<Token>>, texts: seq<string>, stray: Option<string>)
    requires AfterTerminator(tokens) && t < |tokens| && IsTerminatorSlot(tokens[t])
    ensures StrayValueAt(tokens, t) ==>
      stray == Some(tokens[t + 1].value.text) && ts == tokens[t := None][t + 1 := None]
    ensures !StrayValueAt(tokens, t) ==>
      stray == None && texts == IgnoreTexts(tokens[t..]) && ts == tokens[..t] + Nones(|tokens| - t)
  {
    ts := tokens;
    texts := [];
    var k := t;
    while k < |ts|
      invariant t <= k <= |ts| == |tokens|
      invariant forall j :: 0 <= j < |tokens| ==> ts[j] == if t <= j < k then None else tokens[j]
      invariant texts == IgnoreTexts(tokens[t..k])
      invariant k > t + 1 ==> !StrayValueAt(tokens, t)
    {
      assert tokens[t..k + 1][..k - t] == tokens[t..k];
      var tk := ts[k];
      if tk.Some? && tk.value.Terminator? {
        ts := ts[k := None];
      } else if tk.Some? && tk.value.Ignore? {
        texts := texts + [TakeStr(tk.value)];
        ts := ts[k := None];
      } else if tk.Some? && tk.value.AttachedArgument? {
        assert k == t + 1;
        ts := ts[k := None];
        assert ts == tokens[t := None][t + 1 := None];
        return ts, texts, Some(TakeStr(tk.value));
      } else {
        assert false;
      }
      k := k + 1;
    }
    assert tokens[t..k] == tokens[t..];
    assert ts == tokens[..t] + Nones(|tokens| - t);
    stray := None;
  }

  class Cli {
    var tokens: seq<Option<Token>>
    var store: map<Tag, seq<nat>>
    var knownArgs: seq<Arg>
    var help: Option<HD.Help>
    var askingForHelp: bool
    var prioritizeHelp: bool
    var threshold: nat
    const suggest: Suggester

    ghost predicate Valid()
      reads this`tokens, this`store
    {
      Wf(tokens, store)
    }

    /** `Cli::new`: nothing tokenized, an empty ledger, no help, help prioritised, suggestions off. */
    constructor(suggest: Suggester)
      ensures tokens == [] && store == map[] && knownArgs == [] && help == None
      ensures !askingForHelp && prioritizeHelp && threshold == 0 && this.suggest == suggest
      ensures Valid()
    {
      tokens := [];
      store := map[];
      knownArgs := [];
      help := None;
      askingForHelp := false;
      prioritizeHelp := true;
      threshold := 0;
      this.suggest := suggest;
    }

    // ---------------------------------------------------------------- tokenizing

    /**
     * `Cli::tokenize`: replaces the token vector and the store by those the
     * tokenizer gives for `args` (the first of which is the program name).
     */
    method Tokenize(args: seq<string>)
      modifies this`tokens, this`store
      ensures tokens == Tokens.Tokenize(args).tokens && store == Tokens.Tokenize(args).store
      ensures Valid()
    {
      var ts: seq<Option<Token>> := [];
      var st: map<Tag, seq<nat>> := map[];
      var terminated := false;
      var rest := if |args| == 0 then [] else args[1..];
      var i := 0;
      while i < |rest|
        invariant i <= |rest|
        invariant LexFrom(Lexed(ts, st, terminated), rest[i..], i) == Lex(rest)
      {
        ts, st, terminated := LexArgument(ts, st, terminated, i, rest[i]);
        assert rest[i..][1..] == rest[i + 1..];
        i := i + 1;
      }
      tokens := ts;
      store := st;
      TokenizeWf(args);
    }

    // ---------------------------------------------------------------- settings

    /** `Cli::threshold`: the largest edit cost at which a spelling suggestion is offered (0 = none). */
    method Threshold(cost: nat)
      modifies this`threshold
      ensures threshold == cost
    {
      threshold := cost;
    }

    /** `Cli::downplay_help`: a raised help flag no longer takes priority over other errors. */
    method DownplayHelp()
      modifies this`prioritizeHelp
      ensures !prioritizeHelp
      ensures !HelpPending()
    {
      prioritizeHelp := false;
    }

    /** `Cli::emphasize_help`: a raised help flag takes priority over other errors. */
    method EmphasizeHelp()
      modifies this`prioritizeHelp
      ensures prioritizeHelp
      ensures HelpPending() <==> askingForHelp && help.Some?
    {
      prioritizeHelp := true;
    }

    function IsHelpEnabled(): (r: bool)
      reads this`help
      ensures r <==> help.Some?
    {
      help.Some?
    }

    /** `Cli::disable_help`: forgets the descriptor; the help error can no longer be raised. */
    method DisableHelp()
      modifies this`help
      ensures help == None
      ensures !HelpPending()
    {
      help := None;
    }

    // ---------------------------------------------------------------- the help latch

    /** Whether `prioritize_help` stops the processing. */
    predicate HelpPending()
      reads this`prioritizeHelp, this`askingForHelp, this`help
    {
      prioritizeHelp && askingForHelp && help.Some?
    }

    /** An error carrying the current help descriptor. */
    function Fail(kind: E.ErrorKind, context: E.ErrorContext): (e: E.Error)
      reads this`help
      ensures e.help == help && e.kind == kind && e.context == context
    {
      E.Error(help, kind, context)
    }

    /** `prioritize_help`: the help request, as an error, exactly while help is pending. */
    function PrioritizeHelp(): (r: Result<(), E.Error>)
      reads this`prioritizeHelp, this`askingForHelp, this`help
      ensures r.Err? <==> HelpPending()
      ensures r.Err? ==> r.error == Fail(E.ErrorKind.Help, E.ErrorContext.Help)
      ensures r.Err? ==> E.Code(r.error) == E.OKAY && E.AsQuickHelp(r.error) == Some(HD.GetText(help.value))
    {
      if prioritizeHelp && askingForHelp && IsHelpEnabled() then Err(Fail(E.ErrorKind.Help, E.ErrorContext.Help))
      else Ok(())
    }

    /** What a check reports instead of `e`: the help request while it is pending, `e` otherwise. */
    function Raise(e: E.Error): (r: E.Error)
      reads this`prioritizeHelp, this`askingForHelp, this`help
      ensures HelpPending() ==> r.kind == E.ErrorKind.Help && E.Code(r) == E.OKAY
      ensures !HelpPending() ==> r == e
    {
      if HelpPending() then Fail(E.ErrorKind.Help, E.ErrorContext.Help) else e
    }

    // ---------------------------------------------------------------- the token arena

    /** `take_flag_locs`: removes the long-name slot from the store and gives its positions. */
    method TakeFlagLocs(tag: string) returns (locs: seq<nat>)
      modifies this`store
      ensures locs == Slot(old(store), FlagTag(tag)) && store == old(store) - {FlagTag(tag)}
    {
      locs := if FlagTag(tag) in store then store[FlagTag(tag)] else [];
      store := store - {FlagTag(tag)};
    }

    /** `take_switch_locs`: removes the switch's slot from the store and gives its positions. */
    method TakeSwitchLocs(c: char) returns (locs: seq<nat>)
      modifies this`store
      ensures locs == Slot(old(store), SwitchTag([c])) && store == old(store) - {SwitchTag([c])}
    {
      var tag := SwitchTag([c]);
      locs := if tag in store then store[tag] else [];
      store := store - {tag};
    }

    /**
     * `pull_flag`: empties the flag at each location in turn and takes the
     * value behind it (an attached value always, a plain word only with
     * `withUarg`); one value (or None) per location, in order.
     */
    method PullFlag(locations: seq<nat>, withUarg: bool) returns (values: seq<Option<string>>)
      requires Distinct(locations) && AtFlags(tokens, locations)
      modifies this`tokens
      ensures tokens == Pulled(old(tokens), locations, withUarg)
      ensures values == Values(old(tokens), locations, withUarg)
    {
      ghost var orig := tokens;
      values := [];
      var k := 0;
      PulledNothing(orig, withUarg);
      assert locations[..0] == [];
      while k < |locations|
        invariant k <= |locations|
        invariant tokens == Pulled(orig, locations[..k], withUarg)
        invariant values == Values(orig, locations[..k], withUarg)
      {
        var i := locations[k];
        PullStep(orig, locations, k, withUarg);
        tokens := tokens[i := None];
        var v := TakeValueAfter(i, withUarg);
        ValuesSnoc(orig, locations, k, withUarg);
        values := values + [v];
        k := k + 1;
      }
      assert locations[..k] == locations;
    }

    /**
     * The look behind a pulled flag at `i` (src/cli.rs:860-875): an attached
     * value is always taken, a plain word only with `withUarg`; anything else
     * stays.
     */
    method TakeValueAfter(i: nat, withUarg: bool) returns (v: Option<string>)
      modifies this`tokens
      ensures v == NextValue(old(tokens), i, withUarg)
      ensures tokens == if v.Some? then old(tokens)[i + 1 := None] else old(tokens)
    {
      v := None;
      if i + 1 < |tokens| && tokens[i + 1].Some? {
        match tokens[i + 1].value
        case AttachedArgument(_, s) =>
          v := Some(s);
          tokens := tokens[i + 1 := None];
        case UnattachedArgument(_, s) =>
          if withUarg {
            v := Some(s);
            tokens := tokens[i + 1 := None];
          }
        case _ =>
      }
    }

    /**
     * `next_uarg`: takes the first remaining plain word, unless a terminator
     * comes first; what it serves is the head of `Words`, and the rest of
     * `Words` is what remains.
     */
    method NextUarg() returns (r: Option<string>)
      requires Valid()
      modifies this`tokens
      ensures Valid()
      ensures old(Words(tokens)) == [] ==> r == None && tokens == old(tokens)
      ensures old(Words(tokens)) != [] ==>
        (old(FirstStop(tokens)).Some? &&
         r == Some(old(Words(tokens))[0]) && tokens == old(tokens)[old(FirstStop(tokens)).value := None])
      ensures old(Words(tokens)) != [] ==> Words(tokens) == old(Words(tokens))[1..]
    {
      NextWord(tokens);
      var p := FirstStop(tokens);
      if p.Some? && tokens[p.value].value.UnattachedArgument? {
        r := Some(TakeStr(tokens[p.value].value));
        TakeWordWf(tokens, store, p.value);
        tokens := tokens[p.value := None];
      } else {
        r := None;
      }
    }

    // ---------------------------------------------------------------- spelling suggestions

    /** A suggestion from the bank, only when the threshold is above 0 (src/cli.rs:340-344, 462-466, 776-780). */
    function Suggest(word: string, bank: seq<string>): (r: Option<string>)
      reads this`threshold
      ensures threshold == 0 ==> r == None
      ensures r.Some? ==> r.value in bank
    {
      if threshold > 0 then suggest(word, bank, threshold) else None
    }

    function SuggestArgError(key: string, closest: string): (e: E.Error)
      reads this`help
      ensures e.kind == E.ErrorKind.SuggestArg && e.context == E.ErrorContext.SuggestWord(FLAG + key, FLAG + closest)
    {
      Fail(E.ErrorKind.SuggestArg, E.ErrorContext.SuggestWord(FLAG + key, FLAG + closest))
    }

    /** The keys `prioritize_suggestion` can report: long flags still stored for which a suggestion exists. */
    ghost function Suggestable(known: seq<Arg>): set<Tag>
      reads this`tokens, this`store, this`help, this`askingForHelp, this`prioritizeHelp, this`threshold
    {
      set t | t in store && First(store, t) < |tokens| && tokens[First(store, t)].Some? &&
        tokens[First(store, t)].value.FlagToken? && Suggest(t.key, KnownFlagNames(known)).Some?
    }

    /**
     * What `prioritize_suggestion` yields: nothing while help is asked for;
     * otherwise a suggestion for the earliest long flag that has one.
     */
    ghost function SuggestionCheck(known: seq<Arg>): Result<(), E.Error>
      reads this`tokens, this`store, this`help, this`askingForHelp, this`prioritizeHelp, this`threshold
    {
      if askingForHelp || Suggestable(known) == {} then Ok(())
      else
        var t := LeftmostOf(store, Suggestable(known));
        Err(SuggestArgError(t.key, Suggest(t.key, KnownFlagNames(known)).value))
    }

    /** `prioritize_suggestion`: visits the store and keeps the earliest key that is suggestable. */
    method PrioritizeSuggestion() returns (r: Result<(), E.Error>)
      requires Valid()
      ensures r == SuggestionCheck(knownArgs)
      ensures r.Err? ==> !askingForHelp && threshold > 0 && r.error.kind == E.ErrorKind.SuggestArg
    {
      var bank := KnownFlagNames(knownArgs);
      var best := EarliestSuggestable(bank, knownArgs);
      if askingForHelp {
        r := Ok(());
      } else if best.Some? {
        ghost var cands := Suggestable(knownArgs);
        LeftmostUnique(tokens, store, cands, best.value, LeftmostOf(store, cands));
        r := Err(SuggestArgError(best.value.key, Suggest(best.value.key, bank).value));
      } else {
        r := Ok(());
      }
    }

    /**
     * The loop of `prioritize_suggestion` (src/cli.rs:455-479): over the store
     * in any order, the long flag with the smallest first position for which
     * the bank offers a suggestion.
     */
    method EarliestSuggestable(bank: seq<string>, ghost known: seq<Arg>) returns (best: Option<Tag>)
      requires Valid() && bank == KnownFlagNames(known)
      ensures best.None? ==> Suggestable(known) == {}
      ensures best.Some? ==> IsLeftmost(store, Suggestable(known), best.value)
    {
      best := None;
      var remaining := store.Keys;
      ghost var cands := Suggestable(known);
      while remaining != {}
        invariant remaining <= store.Keys
        invariant best.None? ==> forall u :: u in cands ==> u in remaining
        invariant best.Some? ==> best.value in cands && best.value !in remaining
        invariant best.Some? ==> forall u :: u in cands && u !in remaining ==> First(store, best.value) <= First(store, u)
        decreases |remaining|
      {
        var key :| key in remaining;
        FirstInside(tokens, store, key);
        var first := store[key][0];
        assert key in cands <==> tokens[first].value.FlagToken? && Suggest(key.key, bank).Some?;
        if tokens[first].value.FlagToken? && Suggest(key.key, bank).Some? && (best.None? || first < store[best.value][0]) {
          best := Some(key);
        }
        remaining := remaining - {key};
      }
    }

    // ---------------------------------------------------------------- flags left behind

    /**
     * `find_first_flag_left`: visits the store in any order and keeps the key
     * whose first position is the smallest below `breakpoint`.
     */
    method FindFirstFlagLeft(breakpoint: nat) returns (r: Option<(string, nat)>)
      requires Valid()
      ensures r.None? <==> Before(store, breakpoint) == {}
      ensures r.Some? ==>
        var t := LeftmostOf(store, Before(store, breakpoint));
        r.value == (t.key, First(store, t)) && r.value.1 < breakpoint
    {
      var minI: Option<(Tag, nat)> := None;
      var remaining := store.Keys;
      ghost var cands := Before(store, breakpoint);
      while remaining != {}
        invariant remaining <= store.Keys
        invariant minI.None? ==> forall u :: u in cands ==> u in remaining
        invariant minI.Some? ==> minI.value.0 in cands && minI.value.0 !in remaining && minI.value.1 == First(store, minI.value.0)
        invariant minI.Some? ==> forall u :: u in cands && u !in remaining ==> minI.value.1 <= First(store, u)
        decreases |remaining|
      {
        var key :| key in remaining;
        FirstInside(tokens, store, key);
        var first := store[key][0];
        if first < breakpoint && (minI.None? || minI.value.1 > first) {
          minI := Some((key, first));
        }
        remaining := remaining - {key};
      }
      if minI.Some? {
        LeftmostUnique(tokens, store, cands, minI.value.0, LeftmostOf(store, cands));
        r := Some((minI.value.0.key, minI.value.1));
      } else {
        r := None;
      }
    }

    /** What `capture_bad_flag(i)` yields: the earliest flag left below `i`, with the prefix it was written with. */
    ghost function BadFlag(i: nat, known: seq<Arg>): (r: Result<Option<(string, string, nat)>, E.Error>)
      requires Valid()
      reads this`tokens, this`store, this`help, this`askingForHelp, this`prioritizeHelp, this`threshold
      ensures r.Ok? && r.value.Some? ==> r.value.value.2 < i
    {
      if Before(store, i) == {} then Ok(None)
      else
        var t := LeftmostOf(store, Before(store, i));
        FirstInside(tokens, store, t);
        var pos := First(store, t);
        if HelpPending() then Err(Fail(E.ErrorKind.Help, E.ErrorContext.Help))
        else if tokens[pos].value.FlagToken? then
          match Suggest(t.key, KnownFlagNames(known))
          case Some(w) => Err(SuggestArgError(t.key, w))
          case None => Ok(Some((FLAG, t.key, pos)))
        else Ok(Some((SWITCH, t.key, pos)))
    }

    /** `capture_bad_flag`: reports a flag still left before position `i`. */
    method CaptureBadFlag(i: nat) returns (r: Result<Option<(string, string, nat)>, E.Error>)
      requires Valid()
      ensures r == BadFlag(i, knownArgs)
      ensures r == Ok(None) <==> Before(store, i) == {}
    {
      var found := FindFirstFlagLeft(i);
      if found.None? {
        return Ok(None);
      }
      var ph := PrioritizeHelp();
      if ph.Err? {
        return Err(ph.error);
      }
      var (key, val) := found.value;
      FirstInside(tokens, store, LeftmostOf(store, Before(store, i)));
      var t := tokens[val].value;
      var prefix: string;
      if t.SwitchToken? || t.EmptySwitch? {
        prefix := SWITCH;
      } else {
        var closest := Suggest(key, KnownFlagNames(knownArgs));
        if closest.Some? {
          return Err(SuggestArgError(key, closest.value));
        }
        prefix := FLAG;
      }
      r := Ok(Some((prefix, key, val)));
    }

    /** When `is_empty` is defined: the source panics if the first live token is an ignored argument. */
    predicate EmptyDefined()
      reads this`tokens, this`store, this`help, this`askingForHelp, this`prioritizeHelp
    {
      HelpPending() || Before(store, |tokens|) != {} || FirstLive(tokens).None? ||
      !tokens[FirstLive(tokens).value].value.Ignore?
    }

    /** What `is_empty` yields: help, a flag left over, a plain word or terminator left over, or Ok. */
    ghost function EmptyCheck(known: seq<Arg>): Result<(), E.Error>
      requires Valid()
      reads this`tokens, this`store, this`help, this`askingForHelp, this`prioritizeHelp, this`threshold
    {
      if HelpPending() then Err(Fail(E.ErrorKind.Help, E.ErrorContext.Help))
      else
        match BadFlag(|tokens|, known)
        case Err(e) => Err(e)
        case Ok(Some((prefix, key, _))) => Err(Fail(E.ErrorKind.UnexpectedArg, E.ErrorContext.UnexpectedArg(prefix + key)))
        case Ok(None) =>
          match FirstLive(tokens)
          case None => Ok(())
          case Some(p) =>
            if tokens[p].value.UnattachedArgument? then
              Err(Fail(E.ErrorKind.UnexpectedArg, E.ErrorContext.UnexpectedArg(tokens[p].value.text)))
            else Err(Fail(E.ErrorKind.UnexpectedArg, E.ErrorContext.UnexpectedArg(FLAG)))
    }

    /** `is_empty` succeeds exactly when help is not pending and every token was consumed. */
    lemma EmptyCheckOkIff(known: seq<Arg>)
      requires Valid()
      ensures EmptyCheck(known).Ok? <==> !HelpPending() && forall q :: 0 <= q < |tokens| ==> tokens[q].None?
    {
      StoreExhausted(tokens, store);
      if EmptyCheck(known).Ok? && Before(store, |tokens|) != {} {
        var t := LeftmostOf(store, Before(store, |tokens|));
        FirstInside(tokens, store, t);
      }
    }

    /** `is_empty`: checks that nothing is left to process. */
    method IsEmpty() returns (r: Result<(), E.Error>)
      requires Valid() && EmptyDefined()
      ensures r == EmptyCheck(knownArgs)
    {
      var ph := PrioritizeHelp();
      if ph.Err? {
        return Err(ph.error);
      }
      var bad := CaptureBadFlag(|tokens|);
      if bad.Err? {
        return Err(bad.error);
      }
      if bad.value.Some? {
        var (prefix, key, _) := bad.value.value;
        return Err(Fail(E.ErrorKind.UnexpectedArg, E.ErrorContext.UnexpectedArg(prefix + key)));
      }
      var p := FirstLive(tokens);
      if p.None? {
        return Ok(());
      }
      FirstLiveKind(tokens, store);
      var t := tokens[p.value].value;
      if t.UnattachedArgument? {
        r := Err(Fail(E.ErrorKind.UnexpectedArg, E.ErrorContext.UnexpectedArg(t.text)));
      } else if t.Terminator? {
        r := Err(Fail(E.ErrorKind.UnexpectedArg, E.ErrorContext.UnexpectedArg(FLAG)));
      } else {
        assert false;
      }
    }

    // ---------------------------------------------------------------- flags

    /** The values a claim of `f` would pull from the current state. */
    ghost function FlagValues(f: Flag, withUarg: bool): seq<Option<string>>
      reads this`tokens, this`store
    {
      Values(tokens, FlagLocs(store, f), withUarg)
    }

    /**
     * The three lines every flag and option query starts with
     * (src/cli.rs:498-501, 593-596, 668-672): the positions of the long form,
     * then of the switch, both taken out of the store.
     */
    method FlagLocations(f: Flag) returns (locs: seq<nat>)
      modifies this`store
      ensures locs == FlagLocs(old(store), f) && store == old(store) - FlagTags(f)
    {
      TakeBoth(store, f);
      locs := TakeFlagLocs(GetName(f));
      if GetSwitch(f).Some? {
        var more := TakeSwitchLocs(GetSwitch(f).value);
        locs := locs + more;
      }
    }

    /**
     * `check_flag_all`: the number of times `f` was raised (long form and
     * switch), an UnexpectedValue error if one occurrence carries an attached
     * value; raising the help flag sets the help latch.
     */
    method CheckFlagAll(f: Flag) returns (r: Result<nat, E.Error>)
      requires Valid()
      modifies this`tokens, this`store, this`knownArgs, this`askingForHelp
      ensures Valid()
      ensures tokens == Pulled(old(tokens), FlagLocs(old(store), f), false) && store == old(store) - FlagTags(f)
      ensures FirstSome(old(FlagValues(f, false))).Some? ==>
        r == Err(Raise(Fail(E.ErrorKind.UnexpectedValue,
                            E.ErrorContext.UnexpectedValue(FlagArg(f), FirstSome(old(FlagValues(f, false))).value)))) &&
        askingForHelp == old(askingForHelp) &&
        knownArgs == old(knownArgs) + (if HelpPending() then [FlagArg(f)] else [])
      ensures FirstSome(old(FlagValues(f, false))).None? ==>
        r == Ok(|old(FlagValues(f, false))|) && knownArgs == old(knownArgs) + [FlagArg(f)] &&
        askingForHelp == (old(askingForHelp) || (|old(FlagValues(f, false))| > 0 && help.Some? && HD.GetFlag(help.value).name == f.name))
    {
      FlagLocsFacts(tokens, store, f);
      ClaimWf(tokens, store, f, false);
      ghost var vals := FlagValues(f, false);
      var locs := FlagLocations(f);
      var occurrences := PullFlag(locs, false);
      assert occurrences == vals;
      r := RecordRaised(f, occurrences);
    }

    /**
     * The rest of `check_flag_all` once the occurrences of `f` are pulled:
     * records `f` in the ledger, rejects an attached value, latches a raised
     * help flag and counts.
     */
    method RecordRaised(f: Flag, occurrences: seq<Option<string>>) returns (r: Result<nat, E.Error>)
      modifies this`knownArgs, this`askingForHelp
      ensures FirstSome(occurrences).Some? ==>
        r == Err(Raise(Fail(E.ErrorKind.UnexpectedValue, E.ErrorContext.UnexpectedValue(FlagArg(f), FirstSome(occurrences).value)))) &&
        askingForHelp == old(askingForHelp) &&
        knownArgs == old(knownArgs) + (if HelpPending() then [FlagArg(f)] else [])
      ensures FirstSome(occurrences).None? ==>
        r == Ok(|occurrences|) && knownArgs == old(knownArgs) + [FlagArg(f)] &&
        askingForHelp == (old(askingForHelp) || (|occurrences| > 0 && help.Some? && HD.GetFlag(help.value).name == f.name))
    {
      knownArgs := knownArgs + [FlagArg(f)];
      var val := FirstSome(occurrences);
      if val.Some? {
        var ph := PrioritizeHelp();
        if ph.Err? {
          return Err(ph.error);
        }
        var arg := knownArgs[|knownArgs| - 1];
        knownArgs := knownArgs[..|knownArgs| - 1];
        return Err(Fail(E.ErrorKind.UnexpectedValue, E.ErrorContext.UnexpectedValue(arg, val.value)));
      }
      var raised := |occurrences| != 0;
      if help.Some? {
        var last := knownArgs[|knownArgs| - 1];
        if raised && HD.GetFlag(help.value).name == AsFlag(last).value.name {
          askingForHelp := true;
        }
      }
      r := Ok(|occurrences|);
    }

    /** `check_flag`: whether `f` was raised exactly once; DuplicateOptions when raised more often. */
    method CheckFlag(f: Flag) returns (r: Result<bool, E.Error>)
      requires Valid()
      modifies this`tokens, this`store, this`knownArgs, this`askingForHelp
      ensures Valid()
      ensures tokens == Pulled(old(tokens), FlagLocs(old(store), f), false) && store == old(store) - FlagTags(f)
      ensures FirstSome(old(FlagValues(f, false))).Some? ==>
        r == Err(Raise(Fail(E.ErrorKind.UnexpectedValue,
                            E.ErrorContext.UnexpectedValue(FlagArg(f), FirstSome(old(FlagValues(f, false))).value)))) &&
        askingForHelp == old(askingForHelp) &&
        knownArgs == old(knownArgs) + (if HelpPending() then [FlagArg(f)] else [])
      ensures FirstSome(old(FlagValues(f, false))).None? ==>
        askingForHelp == (old(askingForHelp) || (|old(FlagValues(f, false))| > 0 && help.Some? && HD.GetFlag(help.value).name == f.name))
      ensures FirstSome(old(FlagValues(f, false))).None? && |old(FlagValues(f, false))| <= 1 ==>
        r == Ok(|old(FlagValues(f, false))| == 1) && knownArgs == old(knownArgs) + [FlagArg(f)]
      ensures FirstSome(old(FlagValues(f, false))).None? && |old(FlagValues(f, false))| > 1 ==>
        r == Err(Raise(Fail(E.ErrorKind.DuplicateOptions, E.ErrorContext.FailedArg(FlagArg(f))))) &&
        knownArgs == old(knownArgs) + (if HelpPending() then [FlagArg(f)] else [])
    {
      var occurrences := CheckFlagAll(f);
      if occurrences.Err? {
        return Err(occurrences.error);
      }
      if occurrences.value > 1 {
        var ph := PrioritizeHelp();
        if ph.Err? {
          return Err(ph.error);
        }
        var arg := knownArgs[|knownArgs| - 1];
        knownArgs := knownArgs[..|knownArgs| - 1];
        return Err(Fail(E.ErrorKind.DuplicateOptions, E.ErrorContext.FailedArg(arg)));
      }
      r := Ok(occurrences.value == 1);
    }

    /** `check_flag_n`: the number of times `f` was raised; ExceedingMaxCount when it is more than `n`. */
    method CheckFlagN(f: Flag, n: nat) returns (r: Result<nat, E.Error>)
      requires Valid()
      modifies this`tokens, this`store, this`knownArgs, this`askingForHelp
      ensures Valid()
      ensures tokens == Pulled(old(tokens), FlagLocs(old(store), f), false) && store == old(store) - FlagTags(f)
      ensures FirstSome(old(FlagValues(f, false))).Some? ==>
        r == Err(Raise(Fail(E.ErrorKind.UnexpectedValue,
                            E.ErrorContext.UnexpectedValue(FlagArg(f), FirstSome(old(FlagValues(f, false))).value)))) &&
        askingForHelp == old(askingForHelp) &&
        knownArgs == old(knownArgs) + (if HelpPending() then [FlagArg(f)] else [])
      ensures FirstSome(old(FlagValues(f, false))).None? ==>
        askingForHelp == (old(askingForHelp) || (|old(FlagValues(f, false))| > 0 && help.Some? && HD.GetFlag(help.value).name == f.name))
      ensures FirstSome(old(FlagValues(f, false))).None? && |old(FlagValues(f, false))| <= n ==>
        r == Ok(|old(FlagValues(f, false))|) && knownArgs == old(knownArgs) + [FlagArg(f)]
      ensures FirstSome(old(FlagValues(f, false))).None? && |old(FlagValues(f, false))| > n ==>
        r == Err(Fail(E.ErrorKind.ExceedingMaxCount, E.ErrorContext.ExceededThreshold(FlagArg(f), |old(FlagValues(f, false))|, n))) &&
        knownArgs == old(knownArgs)
    {
      var occurrences := CheckFlagAll(f);
      if occurrences.Err? {
        return Err(occurrences.error);
      }
      if occurrences.value <= n {
        return Ok(occurrences.value);
      }
      var arg := knownArgs[|knownArgs| - 1];
      knownArgs := knownArgs[..|knownArgs| - 1];
      r := Err(Fail(E.ErrorKind.ExceedingMaxCount, E.ErrorContext.ExceededThreshold(arg, occurrences.value, n)));
    }

    /**
     * `Cli::help`: installs the descriptor and, unless help was already asked
     * for, checks its flag and latches whether it was raised.
     */
    method Help(h: HD.Help) returns (r: Result<(), E.Error>)
      requires Valid()
      modifies this`help, this`tokens, this`store, this`knownArgs, this`askingForHelp
      ensures Valid() && help == Some(h)
      ensures old(askingForHelp) ==>
        r == Ok(()) && askingForHelp && tokens == old(tokens) && store == old(store) && knownArgs == old(knownArgs)
      ensures !old(askingForHelp) ==>
        tokens == Pulled(old(tokens), FlagLocs(old(store), HD.GetFlag(h)), false) && store == old(store) - FlagTags(HD.GetFlag(h))
      ensures !old(askingForHelp) && FirstSome(old(FlagValues(HD.GetFlag(h), false))).Some? ==>
        r == Err(Fail(E.ErrorKind.UnexpectedValue,
                      E.ErrorContext.UnexpectedValue(FlagArg(HD.GetFlag(h)), FirstSome(old(FlagValues(HD.GetFlag(h), false))).value))) &&
        !askingForHelp && knownArgs == old(knownArgs)
      ensures (!old(askingForHelp) && FirstSome(old(FlagValues(HD.GetFlag(h), false))).None? &&
               |old(FlagValues(HD.GetFlag(h), false))| <= 1) ==>
        r == Ok(()) && (askingForHelp <==> |old(FlagValues(HD.GetFlag(h), false))| == 1) &&
        knownArgs == old(knownArgs) + [FlagArg(HD.GetFlag(h))]
      ensures (!old(askingForHelp) && FirstSome(old(FlagValues(HD.GetFlag(h), false))).None? &&
               |old(FlagValues(HD.GetFlag(h), false))| > 1) ==>
        askingForHelp &&
        r == Err(if prioritizeHelp then Fail(E.ErrorKind.Help, E.ErrorContext.Help)
                 else Fail(E.ErrorKind.DuplicateOptions, E.ErrorContext.FailedArg(FlagArg(HD.GetFlag(h))))) &&
        knownArgs == old(knownArgs) + (if prioritizeHelp then [FlagArg(HD.GetFlag(h))] else [])
    {
      help := Some(h);
      if !askingForHelp && IsHelpEnabled() {
        var raised := CheckFlag(HD.GetFlag(help.value));
        if raised.Err? {
          return Err(raised.error);
        }
        askingForHelp := raised.value;
      }
      r := Ok(());
    }

    // ---------------------------------------------------------------- options

    /**
     * `check_option`: the one value behind `o`, converted; ExpectingValue when
     * the flag has no value, DuplicateOptions when it is given more than once,
     * BadType when the value does not convert.
     */
    method CheckOption<T>(o: Optional, parse: Parser<T>) returns (r: Result<Option<T>, E.Error>)
      requires Valid()
      modifies this`tokens, this`store, this`knownArgs
      ensures Valid()
      ensures tokens == Pulled(old(tokens), FlagLocs(old(store), GetFlag(o)), true) && store == old(store) - FlagTags(GetFlag(o))
      ensures r.Ok? ==> knownArgs == old(knownArgs) + [OptionalArg(o)]
      ensures r.Err? ==> knownArgs == old(knownArgs) + (if HelpPending() then [OptionalArg(o)] else [])
      ensures |old(FlagValues(GetFlag(o), true))| == 0 ==> r == Ok(None)
      ensures |old(FlagValues(GetFlag(o), true))| == 1 && Parses(old(FlagValues(GetFlag(o), true))[0], parse) ==>
        r == Ok(Some(parse(old(FlagValues(GetFlag(o), true))[0].value).value))
      ensures (|old(FlagValues(GetFlag(o), true))| == 1 && old(FlagValues(GetFlag(o), true))[0].Some? &&
               !Parses(old(FlagValues(GetFlag(o), true))[0], parse)) ==>
        r == Err(Raise(Fail(E.ErrorKind.BadType,
                            E.ErrorContext.FailedCast(OptionalArg(o), old(FlagValues(GetFlag(o), true))[0].value,
                                                      parse(old(FlagValues(GetFlag(o), true))[0].value).error))))
      ensures |old(FlagValues(GetFlag(o), true))| == 1 && old(FlagValues(GetFlag(o), true))[0].None? ==>
        r == Err(Raise(Fail(E.ErrorKind.ExpectingValue, E.ErrorContext.FailedArg(OptionalArg(o)))))
      ensures |old(FlagValues(GetFlag(o), true))| > 1 ==>
        r == Err(Raise(Fail(E.ErrorKind.DuplicateOptions, E.ErrorContext.FailedArg(OptionalArg(o)))))
    {
      FlagLocsFacts(tokens, store, GetFlag(o));
      ClaimWf(tokens, store, GetFlag(o), true);
      var locs := FlagLocations(GetFlag(o));
      knownArgs := knownArgs + [OptionalArg(o)];
      var values := PullFlag(locs, true);
      if |values| == 0 {
        return Ok(None);
      }
      var ph := PrioritizeHelp();
      if |values| == 1 {
        if values[0].Some? {
          var word := values[0].value;
          var result := parse(word);
          if result.Ok? {
            return Ok(Some(result.value));
          }
          if ph.Err? {
            return Err(ph.error);
          }
          var arg := knownArgs[|knownArgs| - 1];
          knownArgs := knownArgs[..|knownArgs| - 1];
          return Err(Fail(E.ErrorKind.BadType, E.ErrorContext.FailedCast(arg, word, result.error)));
        }
        if ph.Err? {
          return Err(ph.error);
        }
        var arg := knownArgs[|knownArgs| - 1];
        knownArgs := knownArgs[..|knownArgs| - 1];
        return Err(Fail(E.ErrorKind.ExpectingValue, E.ErrorContext.FailedArg(arg)));
      }
      if ph.Err? {
        return Err(ph.error);
      }
      var arg := knownArgs[|knownArgs| - 1];
      knownArgs := knownArgs[..|knownArgs| - 1];
      r := Err(Fail(E.ErrorKind.DuplicateOptions, E.ErrorContext.FailedArg(arg)));
    }

    /**
     * `check_option_all`: every value behind `o`, converted in order (None
     * when the option is absent); the first value that is missing or does not
     * convert decides the error.
     */
    method CheckOptionAll<T>(o: Optional, parse: Parser<T>) returns (r: Result<Option<seq<T>>, E.Error>)
      requires Valid()
      modifies this`tokens, this`store, this`knownArgs
      ensures Valid()
      ensures tokens == Pulled(old(tokens), FlagLocs(old(store), GetFlag(o)), true) && store == old(store) - FlagTags(GetFlag(o))
      ensures r.Ok? ==> knownArgs == old(knownArgs) + [OptionalArg(o)]
      ensures r.Err? ==> knownArgs == old(knownArgs) + (if HelpPending() then [OptionalArg(o)] else [])
      ensures |old(FlagValues(GetFlag(o), true))| == 0 ==> r == Ok(None)
      ensures (|old(FlagValues(GetFlag(o), true))| > 0 && ParseAll(old(FlagValues(GetFlag(o), true)), parse).AllParsed?) ==>
        r == Ok(Some(ParseAll(old(FlagValues(GetFlag(o), true)), parse).items))
      ensures ParseAll(old(FlagValues(GetFlag(o), true)), parse).MissingValue? ==>
        r == Err(Raise(Fail(E.ErrorKind.ExpectingValue, E.ErrorContext.FailedArg(OptionalArg(o)))))
      ensures ParseAll(old(FlagValues(GetFlag(o), true)), parse).Unparsable? ==>
        r == Err(Raise(Fail(E.ErrorKind.BadType,
                            E.ErrorContext.FailedCast(OptionalArg(o), ParseAll(old(FlagValues(GetFlag(o), true)), parse).word,
                                                      ParseAll(old(FlagValues(GetFlag(o), true)), parse).reason))))
    {
      FlagLocsFacts(tokens, store, GetFlag(o));
      ClaimWf(tokens, store, GetFlag(o), true);
      var locs := FlagLocations(GetFlag(o));
      knownArgs := knownArgs + [OptionalArg(o)];
      var values := PullFlag(locs, true);
      if |values| == 0 {
        return Ok(None);
      }
      var converted := ConvertAll(values, parse);
      if converted.AllParsed? {
        return Ok(Some(converted.items));
      }
      var ph := PrioritizeHelp();
      if ph.Err? {
        return Err(ph.error);
      }
      var arg := knownArgs[|knownArgs| - 1];
      knownArgs := knownArgs[..|knownArgs| - 1];
      if converted.MissingValue? {
        r := Err(Fail(E.ErrorKind.ExpectingValue, E.ErrorContext.FailedArg(arg)));
      } else {
        r := Err(Fail(E.ErrorKind.BadType, E.ErrorContext.FailedCast(arg, converted.word, converted.reason)));
      }
    }

    /** `check_option_n`: like CheckOptionAll, with ExceedingMaxCount when more than `n` values convert. */
    method CheckOptionN<T>(o: Optional, parse: Parser<T>, n: nat) returns (r: Result<Option<seq<T>>, E.Error>)
      requires Valid()
      modifies this`tokens, this`store, this`knownArgs
      ensures Valid()
      ensures tokens == Pulled(old(tokens), FlagLocs(old(store), GetFlag(o)), true) && store == old(store) - FlagTags(GetFlag(o))
      ensures |old(FlagValues(GetFlag(o), true))| == 0 ==> r == Ok(None) && knownArgs == old(knownArgs) + [OptionalArg(o)]
      ensures (0 < |old(FlagValues(GetFlag(o), true))| <= n && ParseAll(old(FlagValues(GetFlag(o), true)), parse).AllParsed?) ==>
        r == Ok(Some(ParseAll(old(FlagValues(GetFlag(o), true)), parse).items)) && knownArgs == old(knownArgs) + [OptionalArg(o)]
      ensures (|old(FlagValues(GetFlag(o), true))| > n && ParseAll(old(FlagValues(GetFlag(o), true)), parse).AllParsed?) ==>
        r == Err(Fail(E.ErrorKind.ExceedingMaxCount,
                      E.ErrorContext.ExceededThreshold(OptionalArg(o), |old(FlagValues(GetFlag(o), true))|, n))) &&
        knownArgs == old(knownArgs)
      ensures ParseAll(old(FlagValues(GetFlag(o), true)), parse).MissingValue? ==>
        r == Err(Raise(Fail(E.ErrorKind.ExpectingValue, E.ErrorContext.FailedArg(OptionalArg(o))))) &&
        knownArgs == old(knownArgs) + (if HelpPending() then [OptionalArg(o)] else [])
      ensures ParseAll(old(FlagValues(GetFlag(o), true)), parse).Unparsable? ==>
        r == Err(Raise(Fail(E.ErrorKind.BadType,
                            E.ErrorContext.FailedCast(OptionalArg(o), ParseAll(old(FlagValues(GetFlag(o), true)), parse).word,
                                                      ParseAll(old(FlagValues(GetFlag(o), true)), parse).reason)))) &&
        knownArgs == old(knownArgs) + (if HelpPending() then [OptionalArg(o)] else [])
    {
      var values := CheckOptionAll(o, parse);
      if values.Err? {
        return Err(values.error);
      }
      if values.value.None? || |values.value.value| <= n {
        return values;
      }
      var arg := knownArgs[|knownArgs| - 1];
      knownArgs := knownArgs[..|knownArgs| - 1];
      r := Err(Fail(E.ErrorKind.ExceedingMaxCount, E.ErrorContext.ExceededThreshold(arg, |values.value.value|, n)));
    }

    // ---------------------------------------------------------------- positionals

    /**
     * The error `try_positional` raises for a word that does not convert:
     * help first, then a spelling suggestion for a leftover flag, then BadType
     * against the last known argument.
     */
    ghost function PositionalFailure(word: string, reason: string, known: seq<Arg>): E.Error
      requires |known| > 0
      reads this`tokens, this`store, this`help, this`askingForHelp, this`prioritizeHelp, this`threshold
    {
      if HelpPending() then Fail(E.ErrorKind.Help, E.ErrorContext.Help)
      else if SuggestionCheck(known).Err? then SuggestionCheck(known).error
      else Fail(E.ErrorKind.BadType, E.ErrorContext.FailedCast(known[|known| - 1], word, reason))
    }

    /**
     * `try_positional`: serves the next plain word converted, or None when no
     * word is left before a terminator; the word is consumed either way.
     */
    method TryPositional<T>(parse: Parser<T>) returns (r: Result<Option<T>, E.Error>)
      requires Valid() && |knownArgs| > 0
      modifies this`tokens, this`knownArgs
      ensures Valid()
      ensures old(Words(tokens)) == [] ==> r == Ok(None) && tokens == old(tokens) && knownArgs == old(knownArgs)
      ensures old(Words(tokens)) != [] ==>
        (old(FirstStop(tokens)).Some? && tokens == old(tokens)[old(FirstStop(tokens)).value := None] &&
         Words(tokens) == old(Words(tokens))[1..])
      ensures (old(Words(tokens)) != [] && parse(old(Words(tokens))[0]).Ok?) ==>
        r == Ok(Some(parse(old(Words(tokens))[0]).value)) && knownArgs == old(knownArgs)
      ensures (old(Words(tokens)) != [] && parse(old(Words(tokens))[0]).Err?) ==>
        r == Err(PositionalFailure(old(Words(tokens))[0], parse(old(Words(tokens))[0]).error, old(knownArgs))) &&
        knownArgs == (if r.error.kind == E.ErrorKind.BadType then old(knownArgs)[..|old(knownArgs)| - 1] else old(knownArgs))
    {
      var next := NextUarg();
      if next.None? {
        return Ok(None);
      }
      var word := next.value;
      var result := parse(word);
      if result.Ok? {
        return Ok(Some(result.value));
      }
      var e := ConversionFailure(word, result.error);
      r := Err(e);
    }

    /**
     * The failure branch of `try_positional` (src/cli.rs:385-402): the help
     * request, a flag suggestion, or BadType for the last requested argument,
     * which is popped from the ledger.
     */
    method ConversionFailure(word: string, reason: string) returns (e: E.Error)
      requires Valid() && |knownArgs| > 0
      modifies this`knownArgs
      ensures e == PositionalFailure(word, reason, old(knownArgs))
      ensures knownArgs == (if e.kind == E.ErrorKind.BadType then old(knownArgs)[..|old(knownArgs)| - 1] else old(knownArgs))
    {
      var ph := PrioritizeHelp();
      if ph.Err? {
        return ph.error;
      }
      var ps := PrioritizeSuggestion();
      if ps.Err? {
        return ps.error;
      }
      var arg := knownArgs[|knownArgs| - 1];
      knownArgs := knownArgs[..|knownArgs| - 1];
      e := Fail(E.ErrorKind.BadType, E.ErrorContext.FailedCast(arg, word, reason));
    }

    /** `check_positional`: records `p` and serves the next plain word converted, if there is one. */
    method CheckPositional<T>(p: Positional, parse: Parser<T>) returns (r: Result<Option<T>, E.Error>)
      requires Valid()
      modifies this`tokens, this`knownArgs
      ensures Valid()
      ensures old(Words(tokens)) == [] ==>
        r == Ok(None) && tokens == old(tokens) && knownArgs == old(knownArgs) + [PositionalArg(p)]
      ensures old(Words(tokens)) != [] ==> Words(tokens) == old(Words(tokens))[1..]
      ensures (old(Words(tokens)) != [] && parse(old(Words(tokens))[0]).Ok?) ==>
        r == Ok(Some(parse(old(Words(tokens))[0]).value)) && knownArgs == old(knownArgs) + [PositionalArg(p)]
      ensures (old(Words(tokens)) != [] && parse(old(Words(tokens))[0]).Err?) ==>
        r == Err(PositionalFailure(old(Words(tokens))[0], parse(old(Words(tokens))[0]).error, old(knownArgs) + [PositionalArg(p)])) &&
        knownArgs == old(knownArgs) + (if r.error.kind == E.ErrorKind.BadType then [] else [PositionalArg(p)])
    {
      knownArgs := knownArgs + [PositionalArg(p)];
      r := TryPositional(parse);
    }

    /**
     * `require_positional`: like CheckPositional, but a missing word is an
     * error: help, or whatever `is_empty` reports, or MissingPositional.
     */
    method RequirePositional<T>(p: Positional, parse: Parser<T>) returns (r: Result<T, E.Error>)
      requires Valid() && (Words(tokens) != [] || EmptyDefined())
      modifies this`tokens, this`knownArgs
      ensures Valid()
      ensures old(Words(tokens)) == [] ==>
        tokens == old(tokens) &&
        r == Err(if EmptyCheck(old(knownArgs) + [PositionalArg(p)]).Err? then EmptyCheck(old(knownArgs) + [PositionalArg(p)]).error
                 else Fail(E.ErrorKind.MissingPositional, E.ErrorContext.FailedArg(PositionalArg(p)))) &&
        knownArgs == old(knownArgs) + (if EmptyCheck(old(knownArgs) + [PositionalArg(p)]).Err? then [PositionalArg(p)] else [])
      ensures old(Words(tokens)) != [] ==> Words(tokens) == old(Words(tokens))[1..]
      ensures (old(Words(tokens)) != [] && parse(old(Words(tokens))[0]).Ok?) ==>
        r == Ok(parse(old(Words(tokens))[0]).value) && knownArgs == old(knownArgs) + [PositionalArg(p)]
      ensures (old(Words(tokens)) != [] && parse(old(Words(tokens))[0]).Err?) ==>
        r == Err(PositionalFailure(old(Words(tokens))[0], parse(old(Words(tokens))[0]).error, old(knownArgs) + [PositionalArg(p)])) &&
        knownArgs == old(knownArgs) + (if r.error.kind == E.ErrorKind.BadType then [] else [PositionalArg(p)])
    {
      var value := CheckPositional(p, parse);
      if value.Err? {
        return Err(value.error);
      }
      if value.value.Some? {
        return Ok(value.value.value);
      }
      var ph := PrioritizeHelp();
      if ph.Err? {
        return Err(ph.error);
      }
      var empty := IsEmpty();
      if empty.Err? {
        return Err(empty.error);
      }
      var arg := knownArgs[|knownArgs| - 1];
      knownArgs := knownArgs[..|knownArgs| - 1];
      r := Err(Fail(E.ErrorKind.MissingPositional, E.ErrorContext.FailedArg(arg)));
    }

    /**
     * `require_positional_all`: at least one word, then every further word up
     * to a terminator, each converted; the first word that does not convert
     * ends the query with its error.
     */
    method RequirePositionalAll<T>(p: Positional, parse: Parser<T>) returns (r: Result<seq<T>, E.Error>)
      requires Valid() && (Words(tokens) != [] || EmptyDefined())
      modifies this`tokens, this`knownArgs
      ensures Valid()
      ensures old(Words(tokens)) == [] ==>
        tokens == old(tokens) &&
        r == Err(if EmptyCheck(old(knownArgs) + [PositionalArg(p)]).Err? then EmptyCheck(old(knownArgs) + [PositionalArg(p)]).error
                 else Fail(E.ErrorKind.MissingPositional, E.ErrorContext.FailedArg(PositionalArg(p)))) &&
        knownArgs == old(knownArgs) + (if EmptyCheck(old(knownArgs) + [PositionalArg(p)]).Err? then [PositionalArg(p)] else [])
      ensures (r.Err? && old(Words(tokens)) != []) ==>
        knownArgs == old(knownArgs) + (if r.error.kind == E.ErrorKind.BadType then [] else [PositionalArg(p)])
      ensures r.Ok? ==>
        |r.value| >= 1 && |r.value| == |old(Words(tokens))| && Words(tokens) == [] &&
        (forall k :: 0 <= k < |r.value| ==> parse(old(Words(tokens))[k]) == Ok(r.value[k])) &&
        knownArgs == old(knownArgs) + [PositionalArg(p)]
      ensures (old(Words(tokens)) != [] && forall k :: 0 <= k < |old(Words(tokens))| ==> parse(old(Words(tokens))[k]).Ok?) ==> r.Ok?
      ensures (r.Err? && old(Words(tokens)) != []) ==>
        exists k :: 0 <= k < |old(Words(tokens))| && parse(old(Words(tokens))[k]).Err? &&
          (forall j :: 0 <= j < k ==> parse(old(Words(tokens))[j]).Ok?) &&
          Words(tokens) == old(Words(tokens))[k + 1..] &&
          r.error == PositionalFailure(old(Words(tokens))[k], parse(old(Words(tokens))[k]).error, old(knownArgs) + [PositionalArg(p)])
    {
      ghost var ws := Words(tokens);
      var first := RequirePositional(p, parse);
      if first.Err? {
        return Err(first.error);
      }
      var result := [first.value];
      while true
        invariant Valid() && knownArgs == old(knownArgs) + [PositionalArg(p)]
        invariant 1 <= |result| <= |ws| && Words(tokens) == ws[|result|..]
        invariant forall k :: 0 <= k < |result| ==> parse(ws[k]) == Ok(result[k])
        decreases |Words(tokens)|
      {
        var next := TryPositional(parse);
        if next.Err? {
          assert (old(knownArgs) + [PositionalArg(p)])[..|old(knownArgs)|] == old(knownArgs);
          return Err(next.error);
        }
        if next.value.None? {
          return Ok(result);
        }
        result := result + [next.value.value];
      }
    }

    // ---------------------------------------------------------------- the remainder

    /**
     * `check_remainder`: takes the terminator and the ignored words behind it
     * and returns their texts; a value attached to the terminator (`--=value`)
     * is an UnexpectedValue error that stops the drain right there.
     */
    method CheckRemainder() returns (r: Result<seq<string>, E.Error>)
      requires Valid()
      modifies this`tokens
      ensures Valid() && FirstTerminator(tokens) == None
      ensures old(FirstTerminator(tokens)).None? ==> r == Ok([]) && tokens == old(tokens)
      ensures (old(FirstTerminator(tokens)).Some? && StrayValueAt(old(tokens), old(FirstTerminator(tokens)).value)) ==>
        var t := old(FirstTerminator(tokens)).value;
        r == Err(Fail(E.ErrorKind.UnexpectedValue,
                      E.ErrorContext.UnexpectedValue(FlagArg(NewFlag("")), old(tokens)[t + 1].value.text))) &&
        tokens == old(tokens)[t := None][t + 1 := None]
      ensures (old(FirstTerminator(tokens)).Some? && !StrayValueAt(old(tokens), old(FirstTerminator(tokens)).value)) ==>
        var t := old(FirstTerminator(tokens)).value;
        r == Ok(IgnoreTexts(old(tokens)[t..])) && tokens == old(tokens)[..t] + Nones(|old(tokens)| - t)
    {
      var t := SkipToTerminator(tokens);
      if t == |tokens| {
        return Ok([]);
      }
      RemainderWf(tokens, store, t);
      var texts, stray;
      tokens, texts, stray := DrainRemainder(tokens, t);
      if stray.Some? {
        r := Err(Fail(E.ErrorKind.UnexpectedValue, E.ErrorContext.UnexpectedValue(FlagArg(NewFlag("")), stray.value)));
      } else {
        r := Ok(texts);
      }
    }

    // ---------------------------------------------------------------- subcommands

    /**
     * `check_command`: records `p` and tells whether a plain word is left to
     * serve as the subcommand (building the subcommand is the caller's part).
     */
    method CheckCommand(p: Positional) returns (present: bool)
      requires Valid()
      modifies this`knownArgs
      ensures knownArgs == old(knownArgs) + [PositionalArg(p)]
      ensures present <==> exists q :: 0 <= q < |tokens| && tokens[q].Some? && tokens[q].value.UnattachedArgument?
      ensures present <==> Words(tokens) != []
    {
      knownArgs := knownArgs + [PositionalArg(p)];
      WordsIff(tokens);
      present := Words(tokens) != [];
    }

    /**
     * The `next_uarg().expect(..)` step of `match_command`: takes the command
     * word; what a later `capture_bad_flag` at its position sees is unchanged.
     */
    method TakeCommand() returns (command: string)
      requires Valid() && Words(tokens) != []
      modifies this`tokens
      ensures Valid() && command == old(Words(tokens))[0]
      ensures tokens == old(tokens)[old(CommandPosition(tokens)) := None] && Words(tokens) == old(Words(tokens))[1..]
      ensures BadFlag(old(CommandPosition(tokens)), knownArgs) == old(BadFlag(CommandPosition(tokens), knownArgs))
    {
      var i := CommandPosition(tokens);
      ghost var before := tokens;
      ghost var bad := BadFlag(i, knownArgs);
      var next := NextUarg();
      command := next.value;
      if Before(store, i) != {} {
        var t := LeftmostOf(store, Before(store, i));
        FirstInside(tokens, store, t);
        assert tokens[First(store, t)] == before[First(store, t)];
      }
      assert BadFlag(i, knownArgs) == bad;
    }

    /** When `match_command` is defined: the source panics when an unknown word meets an empty ledger. */
    ghost predicate MatchDefined(words: seq<string>)
      requires Valid() && Words(tokens) != []
      reads this
    {
      |knownArgs| > 0 || Words(tokens)[0] in words || Suggest(Words(tokens)[0], words).Some? ||
      HelpPending() || BadFlag(CommandPosition(tokens), knownArgs).Err?
    }

    /**
     * `match_command`, with the breakpoint corrected to the command's position
     * in the vector: serves the next word when it is one of `words`, unless a
     * flag nobody claimed was written before it; otherwise a suggestion or
     * UnknownSubcommand.
     */
    method MatchCommand(words: seq<string>) returns (r: Result<string, E.Error>)
      requires Valid() && Words(tokens) != [] && MatchDefined(words)
      modifies this`tokens, this`knownArgs
      ensures Valid()
      ensures tokens == old(tokens)[old(CommandPosition(tokens)) := None] && Words(tokens) == old(Words(tokens))[1..]
      ensures BadFlag(old(CommandPosition(tokens)), old(knownArgs)).Err? ==>
        r == Err(BadFlag(old(CommandPosition(tokens)), old(knownArgs)).error) && knownArgs == old(knownArgs)
      ensures (BadFlag(old(CommandPosition(tokens)), old(knownArgs)).Ok? && old(Words(tokens))[0] in words) ==>
        knownArgs == old(knownArgs) &&
        match BadFlag(old(CommandPosition(tokens)), old(knownArgs)).value
        case None => r == Ok(old(Words(tokens))[0])
        case Some((prefix, key, _)) =>
          r == Err(Fail(E.ErrorKind.OutOfContextArgSuggest, E.ErrorContext.OutofContextArgSuggest(prefix + key, old(Words(tokens))[0])))
      ensures (BadFlag(old(CommandPosition(tokens)), old(knownArgs)).Ok? && old(Words(tokens))[0] !in words &&
               Suggest(old(Words(tokens))[0], words).Some?) ==>
        r == Err(Fail(E.ErrorKind.SuggestSubcommand, E.ErrorContext.SuggestWord(old(Words(tokens))[0], Suggest(old(Words(tokens))[0], words).value))) &&
        knownArgs == old(knownArgs)
      ensures (BadFlag(old(CommandPosition(tokens)), old(knownArgs)).Ok? && old(Words(tokens))[0] !in words &&
               Suggest(old(Words(tokens))[0], words).None?) ==>
        if HelpPending() then r == Err(Fail(E.ErrorKind.Help, E.ErrorContext.Help)) && knownArgs == old(knownArgs)
        else
          |old(knownArgs)| > 0 && knownArgs == old(knownArgs)[..|old(knownArgs)| - 1] &&
          r == Err(Fail(E.ErrorKind.UnknownSubcommand, E.ErrorContext.UnknownSubcommand(old(knownArgs)[|old(knownArgs)| - 1], old(Words(tokens))[0])))
      ensures r.Ok? <==> old(Words(tokens))[0] in words && !exists q :: FlagBeforeCommand(old(tokens), q)
    {
      LeftoverBeforeCommand(tokens, store);
      var i := CommandPosition(tokens);
      ghost var bad := BadFlag(i, knownArgs);
      var command := TakeCommand();
      var ooc := CaptureBadFlag(i);
      assert ooc == bad;
      if ooc.Err? {
        return Err(ooc.error);
      }
      if command in words {
        if ooc.value.Some? {
          var (prefix, key, pos) := ooc.value.value;
          if pos < i {
            // help cannot be pending here: CaptureBadFlag would have reported it
            var ph := PrioritizeHelp();
            if ph.Err? {
              assert false;
            }
            return Err(Fail(E.ErrorKind.OutOfContextArgSuggest, E.ErrorContext.OutofContextArgSuggest(prefix + key, command)));
          }
        }
        return Ok(command);
      }
      var e := RejectCommand(command, words);
      r := Err(e);
    }

    /**
     * The branch of `match_command` for a word that is not a command
     * (src/cli.rs:339-357): a suggestion when one is offered, otherwise the
     * help request or UnknownSubcommand for the last requested argument, which
     * is popped from the ledger (the source panics when the ledger is empty).
     */
    method RejectCommand(command: string, words: seq<string>) returns (e: E.Error)
      requires |knownArgs| > 0 || Suggest(command, words).Some? || HelpPending()
      modifies this`knownArgs
      ensures Suggest(command, words).Some? ==>
        e == Fail(E.ErrorKind.SuggestSubcommand, E.ErrorContext.SuggestWord(command, Suggest(command, words).value)) &&
        knownArgs == old(knownArgs)
      ensures Suggest(command, words).None? && HelpPending() ==>
        e == Fail(E.ErrorKind.Help, E.ErrorContext.Help) && knownArgs == old(knownArgs)
      ensures Suggest(command, words).None? && !HelpPending() ==>
        |old(knownArgs)| > 0 && knownArgs == old(knownArgs)[..|old(knownArgs)| - 1] &&
        e == Fail(E.ErrorKind.UnknownSubcommand, E.ErrorContext.UnknownSubcommand(old(knownArgs)[|old(knownArgs)| - 1], command))
    {
      var closest := Suggest(command, words);
      if closest.Some? {
        return Fail(E.ErrorKind.SuggestSubcommand, E.ErrorContext.SuggestWord(command, closest.value));
      }
      var ph := PrioritizeHelp();
      if ph.Err? {
        return ph.error;
      }
      var arg := knownArgs[|knownArgs| - 1];
      knownArgs := knownArgs[..|knownArgs| - 1];
      e := Fail(E.ErrorKind.UnknownSubcommand, E.ErrorContext.UnknownSubcommand(arg, command));
    }
  }
}
