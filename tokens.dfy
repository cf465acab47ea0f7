/**
 * Tokens and the tokenizer of the argument processor (src/cli.rs:10-174).
 *
 * Every raw argument after the program name becomes one or more tokens that
 * carry the argument's index (the ORIGIN index). The tokens are kept in a
 * vector; the store maps each flag name and switch character to the list of
 * POSITIONS in that vector where it occurs. Both numberings are kept: an
 * argument such as `-abc` is one origin index but three positions.
 *
 * This module gives the tokenizer as a function (`Tokenize`), built from a
 * step per argument, and the well-formedness of the token vector and store
 * (`Wf`) that the tokenizer establishes and every later operation keeps.
 */
module Tokens {
  import opened Wrappers

  const SWITCH: string := "-"
  const FLAG: string := "--"

  /** A key of the store: a long flag name or a switch character (as a string). */
  datatype Tag = SwitchTag(key: string) | FlagTag(key: string)

  datatype Token =
    | UnattachedArgument(index: nat, text: string)
    | AttachedArgument(index: nat, text: string)
    | FlagToken(index: nat)
    | SwitchToken(index: nat, c: char)
    | EmptySwitch(index: nat)
    | Ignore(index: nat, text: string)
    | Terminator(index: nat)

  predicate HasText(t: Token)
  {
    t.UnattachedArgument? || t.AttachedArgument? || t.Ignore?
  }

  /** `Token::take_str`: the text of a token that has one (the source panics otherwise). */
  function TakeStr(t: Token): string
    requires HasText(t)
  {
    t.text
  }

  /** A token the store refers to: a long flag, a switch or a bare `-`. */
  predicate IsFlagToken(t: Token)
  {
    t.FlagToken? || t.SwitchToken? || t.EmptySwitch?
  }

  predicate IsFlagish(t: Option<Token>)
  {
    t.Some? && IsFlagToken(t.value)
  }

  predicate IsTerminatorSlot(t: Option<Token>)
  {
    t.Some? && t.value.Terminator?
  }

  // ---------------------------------------------------------------- strings

  predicate StartsWith(s: string, p: string)
  {
    |p| <= |s| && s[..|p|] == p
  }

  /** The first position of `c` in `s`. */
  function IndexOf(s: string, c: char): (r: Option<nat>)
    ensures r.None? <==> c !in s
    ensures r.Some? ==> r.value < |s| && s[r.value] == c && c !in s[..r.value]
  {
    if |s| == 0 then None
    else if s[0] == c then Some(0)
    else
      match IndexOf(s[1..], c)
      case None => None
      case Some(k) =>
        assert s[..k + 1] == [s[0]] + s[1..][..k];
        Some(k + 1)
  }

  /** `str::split_once`: the text before the FIRST `c` and, if there is one, the text after it. */
  function SplitOnce(s: string, c: char): (r: (string, Option<string>))
    ensures r.1.None? ==> r.0 == s && c !in s
    ensures r.1.Some? ==> s == r.0 + [c] + r.1.value && c !in r.0
  {
    match IndexOf(s, c)
    case None => (s, None)
    case Some(k) =>
      assert s == s[..k] + [c] + s[k + 1..];
      (s[..k], Some(s[k + 1..]))
  }

  // ---------------------------------------------------------------- one argument

  /** A token to be pushed, with the store key it is registered under (if any). */
  datatype Entry = Entry(token: Token, tag: Option<Tag>)

  /** `-abc` gives one switch per character, all with origin `i`; a bare `-` gives EmptySwitch. */
  function SwitchEntries(i: nat, cs: string): seq<Entry>
  {
    if |cs| == 0 then [Entry(EmptySwitch(i), Some(SwitchTag("")))]
    else seq(|cs|, k requires 0 <= k < |cs| => Entry(SwitchToken(i, cs[k]), Some(SwitchTag([cs[k]]))))
  }

  lemma SwitchEntriesAt(i: nat, cs: string)
    ensures |SwitchEntries(i, cs)| == if |cs| == 0 then 1 else |cs|
    ensures |cs| == 0 ==> SwitchEntries(i, cs)[0] == Entry(EmptySwitch(i), Some(SwitchTag("")))
    ensures forall j :: 0 <= j < |cs| ==> SwitchEntries(i, cs)[j] == Entry(SwitchToken(i, cs[j]), Some(SwitchTag([cs[j]])))
  {
  }

  /** The tokens for the part of a dashed argument before its first `=`. */
  function OptionEntries(i: nat, opt: string): seq<Entry>
    requires StartsWith(opt, SWITCH)
  {
    if StartsWith(opt, FLAG) then
      if |opt| == 2 then [Entry(Terminator(i), None)] else [Entry(FlagToken(i), Some(FlagTag(opt[2..])))]
    else SwitchEntries(i, opt[1..])
  }

  /** Whether an argument is the terminator `--` (possibly with an attached value). */
  predicate IsTerminatorArg(arg: string)
  {
    StartsWith(arg, SWITCH) && SplitOnce(arg, '=').0 == FLAG
  }

  lemma DashedOptionPart(arg: string)
    requires StartsWith(arg, SWITCH)
    ensures StartsWith(SplitOnce(arg, '=').0, SWITCH)
  {
    var r := SplitOnce(arg, '=');
    if r.1.Some? {
      assert arg == r.0 + ['='] + r.1.value;
      assert arg[0] == '-';
      assert (r.0 + ['='] + r.1.value)[0] != '=';
      assert |r.0| > 0;
      assert arg[..1] == r.0[..1];
    }
  }

  /** The tokens one argument at origin `i` gives, depending on whether `--` was seen before. */
  function ArgEntries(i: nat, arg: string, terminated: bool): seq<Entry>
  {
    if terminated then [Entry(Ignore(i, arg), None)]
    else if StartsWith(arg, SWITCH) then
      var split := SplitOnce(arg, '=');
      DashedOptionPart(arg);
      OptionEntries(i, split.0)
      + (if split.1.Some? then [Entry(AttachedArgument(i, split.1.value), None)] else [])
    else [Entry(UnattachedArgument(i, arg), None)]
  }

  // ---------------------------------------------------------------- the whole argument list

  /** The tokenizer's state: tokens so far, the store, and whether `--` was seen. */
  datatype Lexed = Lexed(tokens: seq<Option<Token>>, store: map<Tag, seq<nat>>, terminated: bool)

  /** The positions stored under a tag (`[]` when the tag never occurred). */
  function Slot(store: map<Tag, seq<nat>>, tag: Tag): seq<nat>
  {
    if tag in store then store[tag] else []
  }

  /** Pushes one token and, when it has a key, records its position under that key. */
  function Push(st: Lexed, e: Entry): Lexed
  {
    var store := if e.tag.Some? then st.store[e.tag.value := Slot(st.store, e.tag.value) + [|st.tokens|]] else st.store;
    Lexed(st.tokens + [Some(e.token)], store, st.terminated)
  }

  function Register(st: Lexed, es: seq<Entry>): Lexed
    decreases |es|
  {
    if |es| == 0 then st else Push(Register(st, es[..|es| - 1]), es[|es| - 1])
  }

  function LexArg(st: Lexed, i: nat, arg: string): Lexed
  {
    Register(st.(terminated := st.terminated || IsTerminatorArg(arg)), ArgEntries(i, arg, st.terminated))
  }

  /** The tokenizer from state `st` over the arguments `rest`, the first of which has origin `i`. */
  function LexFrom(st: Lexed, rest: seq<string>, i: nat): Lexed
    decreases |rest|
  {
    if |rest| == 0 then st else LexFrom(LexArg(st, i, rest[0]), rest[1..], i + 1)
  }

  const Start: Lexed := Lexed([], map[], false)

  /** The tokenizer over the arguments that follow the program name. */
  function Lex(args: seq<string>): Lexed
  {
    LexFrom(Start, args, 0)
  }

  /** `Cli::tokenize`: skips the program name and tokenizes the rest. */
  function Tokenize(args: seq<string>): Lexed
  {
    Lex(if |args| == 0 then [] else args[1..])
  }

  // ---------------------------------------------------------------- well-formedness

  /** The store key a token may be recorded under. */
  predicate Keyed(t: Option<Token>, tag: Tag)
  {
    match t
    case Some(FlagToken(_)) => tag.FlagTag?
    case Some(SwitchToken(_, c)) => tag == SwitchTag([c])
    case Some(EmptySwitch(_)) => tag == SwitchTag("")
    case _ => false
  }

  predicate Ascending(ps: seq<nat>)
  {
    forall j, k :: 0 <= j < k < |ps| ==> ps[j] < ps[k]
  }

  /** Every slot is a non-empty ascending list of positions of live tokens of its key. */
  predicate SlotsWf(tokens: seq<Option<Token>>, store: map<Tag, seq<nat>>)
  {
    forall t :: t in store ==>
      |store[t]| > 0 && Ascending(store[t]) &&
      forall p :: p in store[t] ==> p < |tokens| && Keyed(tokens[p], t)
  }

  /** No position is in two slots. */
  predicate Disjoint(store: map<Tag, seq<nat>>)
  {
    forall t1, t2, p :: t1 in store && t2 in store && p in store[t1] && p in store[t2] ==> t1 == t2
  }

  /** Every live flag, switch or bare `-` token is in some slot. */
  predicate Covered(tokens: seq<Option<Token>>, store: map<Tag, seq<nat>>)
  {
    forall p :: 0 <= p < |tokens| && IsFlagish(tokens[p]) ==> exists t :: t in store && p in store[t]
  }

  /** After a live terminator every token is a live Ignore, except an attached value directly behind it. */
  predicate AfterTerminator(tokens: seq<Option<Token>>)
  {
    forall t, k :: 0 <= t < k < |tokens| && IsTerminatorSlot(tokens[t]) ==>
      tokens[k].Some? && (tokens[k].value.Ignore? || (k == t + 1 && tokens[k].value.AttachedArgument?))
  }

  /** Origin indices never decrease along the vector, and a plain word is the only token of its origin. */
  predicate OriginsOrdered(tokens: seq<Option<Token>>)
  {
    forall j, k :: 0 <= j < k < |tokens| && tokens[j].Some? && tokens[k].Some? ==>
      tokens[j].value.index <= tokens[k].value.index &&
      (tokens[j].value.UnattachedArgument? || tokens[k].value.UnattachedArgument? ==> tokens[j].value.index < tokens[k].value.index)
  }

  /** A live attached value sits directly behind a live flag, switch, bare `-` or terminator. */
  predicate AttachedFollows(tokens: seq<Option<Token>>)
  {
    forall p :: 0 <= p < |tokens| && tokens[p].Some? && tokens[p].value.AttachedArgument? ==>
      p > 0 && (IsFlagish(tokens[p - 1]) || IsTerminatorSlot(tokens[p - 1]))
  }

  predicate Wf(tokens: seq<Option<Token>>, store: map<Tag, seq<nat>>)
  {
    SlotsWf(tokens, store) && Disjoint(store) && Covered(tokens, store) &&
    AfterTerminator(tokens) && OriginsOrdered(tokens) && AttachedFollows(tokens)
  }

  // ---------------------------------------------------------------- the tokenizer keeps Wf

  predicate EntryOk(e: Entry)
  {
    (e.tag.Some? <==> IsFlagToken(e.token)) && (e.tag.Some? ==> Keyed(Some(e.token), e.tag.value))
  }

  function Wrap(es: seq<Entry>): (ts: seq<Option<Token>>)
    ensures |ts| == |es|
    ensures forall k :: 0 <= k < |es| ==> ts[k] == Some(es[k].token)
  {
    seq(|es|, k requires 0 <= k < |es| => Some(es[k].token))
  }

  lemma {:induction false} RegisterTokens(st: Lexed, es: seq<Entry>)
    ensures Register(st, es).tokens == st.tokens + Wrap(es)
    ensures Register(st, es).terminated == st.terminated
    decreases |es|
  {
    if |es| > 0 {
      RegisterTokens(st, es[..|es| - 1]);
      assert Wrap(es) == Wrap(es[..|es| - 1]) + [Some(es[|es| - 1].token)];
    }
  }

  /** Pushing a well-keyed token keeps the slots well formed, disjoint and covering. */
  lemma PushSlots(st: Lexed, e: Entry)
    requires SlotsWf(st.tokens, st.store) && Disjoint(st.store) && Covered(st.tokens, st.store)
    requires EntryOk(e)
    ensures var st' := Push(st, e);
      SlotsWf(st'.tokens, st'.store) && Disjoint(st'.store) && Covered(st'.tokens, st'.store)
  {
    PushSlotsWf(st, e);
    PushDisjoint(st, e);
    PushCovered(st, e);
  }

  lemma PushSlotsWf(st: Lexed, e: Entry)
    requires SlotsWf(st.tokens, st.store) && EntryOk(e)
    ensures SlotsWf(Push(st, e).tokens, Push(st, e).store)
  {
    var st' := Push(st, e);
    var n := |st.tokens|;
    assert forall p :: 0 <= p < n ==> st'.tokens[p] == st.tokens[p];
    forall t | t in st'.store
      ensures |st'.store[t]| > 0 && Ascending(st'.store[t])
      ensures forall p :: p in st'.store[t] ==> p < |st'.tokens| && Keyed(st'.tokens[p], t)
    {
      if e.tag.Some? && t == e.tag.value {
        var ps := Slot(st.store, t);
        assert st'.store[t] == ps + [n];
        assert forall q :: q in ps ==> q < n;
        assert forall j :: 0 <= j < |ps| ==> ps[j] in ps;
      } else {
        assert st'.store[t] == st.store[t];
      }
    }
  }

  lemma PushDisjoint(st: Lexed, e: Entry)
    requires SlotsWf(st.tokens, st.store) && Disjoint(st.store)
    ensures Disjoint(Push(st, e).store)
  {
    var st' := Push(st, e);
    var n := |st.tokens|;
    forall t1, t2, p | t1 in st'.store && t2 in st'.store && p in st'.store[t1] && p in st'.store[t2]
      ensures t1 == t2
    {
      if p == n {
        assert e.tag.Some? && t1 == e.tag.value && t2 == e.tag.value;
      } else {
        assert t1 in st.store && p in st.store[t1];
        assert t2 in st.store && p in st.store[t2];
      }
    }
  }

  lemma PushCovered(st: Lexed, e: Entry)
    requires Covered(st.tokens, st.store) && EntryOk(e)
    ensures Covered(Push(st, e).tokens, Push(st, e).store)
  {
    var st' := Push(st, e);
    var n := |st.tokens|;
    forall p | 0 <= p < |st'.tokens| && IsFlagish(st'.tokens[p])
      ensures exists t :: t in st'.store && p in st'.store[t]
    {
      if p == n {
        assert e.tag.value in st'.store && p in st'.store[e.tag.value];
      } else {
        assert st'.tokens[p] == st.tokens[p];
        var t :| t in st.store && p in st.store[t];
        assert t in st'.store && p in st'.store[t];
      }
    }
  }

  lemma {:induction false} RegisterSlots(st: Lexed, es: seq<Entry>)
    requires SlotsWf(st.tokens, st.store) && Disjoint(st.store) && Covered(st.tokens, st.store)
    requires forall k :: 0 <= k < |es| ==> EntryOk(es[k])
    ensures var st' := Register(st, es);
      SlotsWf(st'.tokens, st'.store) && Disjoint(st'.store) && Covered(st'.tokens, st'.store)
    decreases |es|
  {
    if |es| > 0 {
      RegisterSlots(st, es[..|es| - 1]);
      PushSlots(Register(st, es[..|es| - 1]), es[|es| - 1]);
    }
  }

  lemma SwitchEntriesFacts(i: nat, cs: string)
    ensures var es := SwitchEntries(i, cs);
      |es| > 0 &&
      forall k :: 0 <= k < |es| ==> EntryOk(es[k]) && es[k].token.index == i && IsFlagToken(es[k].token)
  {
  }

  lemma OptionEntriesFacts(i: nat, opt: string)
    requires StartsWith(opt, SWITCH)
    ensures var es := OptionEntries(i, opt);
      |es| > 0 &&
      (forall k :: 0 <= k < |es| ==> EntryOk(es[k]) && es[k].token.index == i) &&
      (opt == FLAG ==> es == [Entry(Terminator(i), None)]) &&
      (opt != FLAG ==> forall k :: 0 <= k < |es| ==> IsFlagToken(es[k].token)) &&
      (IsFlagToken(es[|es| - 1].token) || es[|es| - 1].token.Terminator?)
  {
    if StartsWith(opt, FLAG) {
      if |opt| == 2 {
        assert opt == opt[..2];
      }
    } else {
      assert opt != FLAG;
      SwitchEntriesFacts(i, opt[1..]);
    }
  }

  /** Facts about the tokens of a dashed argument: its option part, then the value after `=` if any. */
  lemma DashedEntriesFacts(i: nat, opt: string, value: Option<string>)
    requires StartsWith(opt, SWITCH)
    ensures var es := OptionEntries(i, opt) + (if value.Some? then [Entry(AttachedArgument(i, value.value), None)] else []);
      |es| > 0 &&
      (forall k :: 0 <= k < |es| ==> EntryOk(es[k]) && es[k].token.index == i && !es[k].token.UnattachedArgument?) &&
      (opt == FLAG ==> es[0].token.Terminator? && forall k :: 1 <= k < |es| ==> k == 1 && es[k].token.AttachedArgument?) &&
      (opt != FLAG ==> forall k :: 0 <= k < |es| ==> !es[k].token.Terminator? && !es[k].token.Ignore?) &&
      (forall k :: 0 <= k < |es| && es[k].token.AttachedArgument? ==>
         k > 0 && (IsFlagToken(es[k - 1].token) || es[k - 1].token.Terminator?))
  {
    var os := OptionEntries(i, opt);
    OptionEntriesFacts(i, opt);
    var tail: seq<Entry> := if value.Some? then [Entry(AttachedArgument(i, value.value), None)] else [];
    var es := os + tail;
    assert forall k :: 0 <= k < |os| ==> es[k] == os[k];
    assert forall k :: |os| <= k < |es| ==> es[k] == tail[k - |os|] && k == |os|;
  }

  /** Facts about the tokens one argument gives. */
  lemma ArgEntriesFacts(i: nat, arg: string, terminated: bool)
    ensures var es := ArgEntries(i, arg, terminated);
      |es| > 0 &&
      (forall k :: 0 <= k < |es| ==> EntryOk(es[k]) && es[k].token.index == i) &&
      (terminated ==> es == [Entry(Ignore(i, arg), None)]) &&
      (!terminated && IsTerminatorArg(arg) ==>
         es[0].token.Terminator? && forall k :: 1 <= k < |es| ==> k == 1 && es[k].token.AttachedArgument?) &&
      (!terminated && !IsTerminatorArg(arg) ==>
         forall k :: 0 <= k < |es| ==> !es[k].token.Terminator? && !es[k].token.Ignore?) &&
      (forall k :: 0 <= k < |es| && es[k].token.UnattachedArgument? ==> es == [Entry(UnattachedArgument(i, arg), None)]) &&
      (forall k :: 0 <= k < |es| && es[k].token.AttachedArgument? ==>
         k > 0 && (IsFlagToken(es[k - 1].token) || es[k - 1].token.Terminator?))
  {
    if !terminated && StartsWith(arg, SWITCH) {
      DashedOptionPart(arg);
      var split := SplitOnce(arg, '=');
      DashedEntriesFacts(i, split.0, split.1);
      assert IsTerminatorArg(arg) <==> split.0 == FLAG;
    } else if !terminated {
      assert !IsTerminatorArg(arg);
    }
  }

  predicate NoTerminator(tokens: seq<Option<Token>>)
  {
    forall k :: 0 <= k < |tokens| ==> !IsTerminatorSlot(tokens[k])
  }

  predicate AllLive(tokens: seq<Option<Token>>, bound: nat)
  {
    forall k :: 0 <= k < |tokens| ==> tokens[k].Some? && tokens[k].value.index < bound
  }

  /** What the tokenizer keeps at every argument boundary. */
  predicate LexInv(st: Lexed, n: nat)
  {
    Wf(st.tokens, st.store) && AllLive(st.tokens, n) && (!st.terminated ==> NoTerminator(st.tokens))
  }

  lemma AppendOrigins(ts: seq<Option<Token>>, es: seq<Entry>, i: nat)
    requires OriginsOrdered(ts) && AllLive(ts, i)
    requires forall k :: 0 <= k < |es| ==> es[k].token.index == i
    requires forall k :: 0 <= k < |es| && es[k].token.UnattachedArgument? ==> |es| == 1
    ensures OriginsOrdered(ts + Wrap(es)) && AllLive(ts + Wrap(es), i + 1)
  {
    var ts' := ts + Wrap(es);
    var n := |ts|;
    assert forall k :: 0 <= k < n ==> ts'[k] == ts[k];
    assert forall k :: n <= k < |ts'| ==> ts'[k] == Some(es[k - n].token);
  }

  lemma AppendAttached(ts: seq<Option<Token>>, es: seq<Entry>)
    requires AttachedFollows(ts)
    requires forall k :: 0 <= k < |es| && es[k].token.AttachedArgument? ==>
      k > 0 && (IsFlagToken(es[k - 1].token) || es[k - 1].token.Terminator?)
    ensures AttachedFollows(ts + Wrap(es))
  {
    var ts' := ts + Wrap(es);
    var n := |ts|;
    assert forall k :: 0 <= k < n ==> ts'[k] == ts[k];
    assert forall k :: n <= k < |ts'| ==> ts'[k] == Some(es[k - n].token);
    forall p | 0 <= p < |ts'| && ts'[p].Some? && ts'[p].value.AttachedArgument?
      ensures p > 0 && (IsFlagish(ts'[p - 1]) || IsTerminatorSlot(ts'[p - 1]))
    {
      if p >= n {
        assert es[p - n].token.AttachedArgument?;
      }
    }
  }

  /** Appending the tokens of an argument seen after the terminator. */
  lemma AppendAfterTerminated(ts: seq<Option<Token>>, es: seq<Entry>)
    requires AfterTerminator(ts)
    requires forall k :: 0 <= k < |es| ==> es[k].token.Ignore?
    ensures AfterTerminator(ts + Wrap(es))
  {
    var ts' := ts + Wrap(es);
    var n := |ts|;
    assert forall k :: 0 <= k < n ==> ts'[k] == ts[k];
    assert forall k :: n <= k < |ts'| ==> ts'[k] == Some(es[k - n].token);
  }

  /** Appending the tokens of the terminator argument itself. */
  lemma AppendTerminatorArg(ts: seq<Option<Token>>, es: seq<Entry>)
    requires NoTerminator(ts)
    requires |es| > 0 && es[0].token.Terminator?
    requires forall k :: 1 <= k < |es| ==> k == 1 && es[k].token.AttachedArgument?
    ensures AfterTerminator(ts + Wrap(es))
  {
    var ts' := ts + Wrap(es);
    var n := |ts|;
    assert forall k :: 0 <= k < n ==> ts'[k] == ts[k];
    assert forall k :: n <= k < |ts'| ==> ts'[k] == Some(es[k - n].token);
  }

  /** Appending the tokens of any other argument before the terminator. */
  lemma AppendBeforeTerminator(ts: seq<Option<Token>>, es: seq<Entry>)
    requires NoTerminator(ts)
    requires forall k :: 0 <= k < |es| ==> !es[k].token.Terminator?
    ensures NoTerminator(ts + Wrap(es)) && AfterTerminator(ts + Wrap(es))
  {
    var ts' := ts + Wrap(es);
    var n := |ts|;
    assert forall k :: 0 <= k < n ==> ts'[k] == ts[k];
    assert forall k :: n <= k < |ts'| ==> ts'[k] == Some(es[k - n].token);
  }

  lemma LexArgInv(st: Lexed, i: nat, arg: string)
    requires LexInv(st, i)
    ensures LexInv(LexArg(st, i, arg), i + 1)
  {
    var st0 := st.(terminated := st.terminated || IsTerminatorArg(arg));
    var es := ArgEntries(i, arg, st.terminated);
    ArgEntriesFacts(i, arg, st.terminated);
    RegisterTokens(st0, es);
    RegisterSlots(st0, es);
    AppendOrigins(st.tokens, es, i);
    AppendAttached(st.tokens, es);
    if st.terminated {
      AppendAfterTerminated(st.tokens, es);
    } else if IsTerminatorArg(arg) {
      AppendTerminatorArg(st.tokens, es);
    } else {
      AppendBeforeTerminator(st.tokens, es);
    }
  }

  lemma {:induction false} LexFromInv(st: Lexed, rest: seq<string>, i: nat)
    requires LexInv(st, i)
    ensures LexInv(LexFrom(st, rest, i), i + |rest|)
    decreases |rest|
  {
    if |rest| > 0 {
      LexArgInv(st, i, rest[0]);
      LexFromInv(LexArg(st, i, rest[0]), rest[1..], i + 1);
    }
  }

  /** The tokenizer establishes the well-formedness every later operation relies on. */
  lemma LexWf(args: seq<string>)
    ensures LexInv(Lex(args), |args|)
  {
    LexFromInv(Start, args, 0);
  }

  lemma TokenizeWf(args: seq<string>)
    ensures Wf(Tokenize(args).tokens, Tokenize(args).store)
    ensures forall k :: 0 <= k < |Tokenize(args).tokens| ==> Tokenize(args).tokens[k].Some?
  {
    LexWf(if |args| == 0 then [] else args[1..]);
  }

  // ---------------------------------------------------------------- properties of the tokenizer

  function PlainTokens(rest: seq<string>, i: nat): (ts: seq<Option<Token>>)
    ensures |ts| == |rest|
  {
    seq(|rest|, k requires 0 <= k < |rest| => Some(UnattachedArgument(i + k, rest[k])))
  }

  /** The Ignore tokens for arguments `rest` whose origins start at `i`. */
  function IgnoredFrom(rest: seq<string>, i: nat): (ts: seq<Option<Token>>)
    ensures |ts| == |rest|
  {
    seq(|rest|, k requires 0 <= k < |rest| => Some(Ignore(i + k, rest[k])))
  }

  lemma PlainWordStep(st: Lexed, i: nat, arg: string)
    requires !st.terminated && !StartsWith(arg, SWITCH)
    ensures LexArg(st, i, arg) == st.(tokens := st.tokens + [Some(UnattachedArgument(i, arg))])
  {
    var e := Entry(UnattachedArgument(i, arg), None);
    assert ArgEntries(i, arg, false) == [e];
    assert Register(st, [e]) == Push(Register(st, []), e);
  }

  lemma IgnoredStep(st: Lexed, i: nat, arg: string)
    requires st.terminated
    ensures LexArg(st, i, arg) == st.(tokens := st.tokens + [Some(Ignore(i, arg))])
  {
    var e := Entry(Ignore(i, arg), None);
    assert ArgEntries(i, arg, true) == [e];
    assert Register(st, [e]) == Push(Register(st, []), e);
  }

  /** Arguments without a leading dash become one plain-word token each, and nothing is stored. */
  lemma {:induction false} PlainWordsFrom(st: Lexed, rest: seq<string>, i: nat)
    requires !st.terminated
    requires forall k :: 0 <= k < |rest| ==> !StartsWith(rest[k], SWITCH)
    ensures LexFrom(st, rest, i) == st.(tokens := st.tokens + PlainTokens(rest, i))
    decreases |rest|
  {
    if |rest| == 0 {
      assert st.tokens + PlainTokens(rest, i) == st.tokens;
    } else {
      PlainWordStep(st, i, rest[0]);
      var st1 := LexArg(st, i, rest[0]);
      PlainWordsFrom(st1, rest[1..], i + 1);
      assert PlainTokens(rest, i) == [Some(UnattachedArgument(i, rest[0]))] + PlainTokens(rest[1..], i + 1);
      assert st1.tokens + PlainTokens(rest[1..], i + 1) == st.tokens + PlainTokens(rest, i);
    }
  }

  lemma PlainWords(args: seq<string>)
    requires forall k :: 0 <= k < |args| ==> !StartsWith(args[k], SWITCH)
    ensures Lex(args) == Lexed(PlainTokens(args, 0), map[], false)
  {
    PlainWordsFrom(Start, args, 0);
  }

  predicate HasTerminator(args: seq<string>)
  {
    exists k :: 0 <= k < |args| && IsTerminatorArg(args[k])
  }

  lemma HasTerminatorCons(args: seq<string>)
    requires |args| > 0
    ensures HasTerminator(args) <==> IsTerminatorArg(args[0]) || HasTerminator(args[1..])
  {
    if HasTerminator(args) && !IsTerminatorArg(args[0]) {
      var k :| 0 <= k < |args| && IsTerminatorArg(args[k]);
      assert args[1..][k - 1] == args[k];
    }
    if HasTerminator(args[1..]) {
      var k :| 0 <= k < |args[1..]| && IsTerminatorArg(args[1..][k]);
      assert args[k + 1] == args[1..][k];
    }
  }

  lemma {:induction false} TerminatedFrom(st: Lexed, rest: seq<string>, i: nat)
    ensures LexFrom(st, rest, i).terminated <==> st.terminated || HasTerminator(rest)
    decreases |rest|
  {
    if |rest| > 0 {
      RegisterTokens(st.(terminated := st.terminated || IsTerminatorArg(rest[0])), ArgEntries(i, rest[0], st.terminated));
      TerminatedFrom(LexArg(st, i, rest[0]), rest[1..], i + 1);
      HasTerminatorCons(rest);
    }
  }

  /** The tokenizer ends terminated exactly when some argument is the terminator `--` (or `--=` with a value). */
  lemma TerminatedIff(args: seq<string>)
    ensures Lex(args).terminated <==> HasTerminator(args)
  {
    TerminatedFrom(Start, args, 0);
  }

  /** Once terminated, every further argument is kept verbatim as an Ignore token and the store is untouched. */
  lemma {:induction false} IgnoredAfterTerminator(st: Lexed, rest: seq<string>, i: nat)
    requires st.terminated
    ensures LexFrom(st, rest, i) == st.(tokens := st.tokens + IgnoredFrom(rest, i))
    decreases |rest|
  {
    if |rest| == 0 {
      assert st.tokens + IgnoredFrom(rest, i) == st.tokens;
    } else {
      IgnoredStep(st, i, rest[0]);
      var st1 := LexArg(st, i, rest[0]);
      IgnoredAfterTerminator(st1, rest[1..], i + 1);
      assert IgnoredFrom(rest, i) == [Some(Ignore(i, rest[0]))] + IgnoredFrom(rest[1..], i + 1);
      assert st1.tokens + IgnoredFrom(rest[1..], i + 1) == st.tokens + IgnoredFrom(rest, i);
    }
  }

  lemma SplitAt(s: string, c: char, k: nat)
    requires k < |s| && s[k] == c && c !in s[..k]
    ensures SplitOnce(s, c) == (s[..k], Some(s[k + 1..]))
  {
    var r := IndexOf(s, c);
    assert s[k] in s;
    var j := r.value;
    assert forall i :: 0 <= i < k ==> s[..k][i] == s[i];
    assert forall i :: 0 <= i < j ==> s[..j][i] == s[i];
    assert j == k;
  }

  lemma SplitNone(s: string, c: char)
    requires c !in s
    ensures SplitOnce(s, c) == (s, None)
  {
  }

  lemma RegisterSnoc(st: Lexed, es: seq<Entry>, e: Entry)
    ensures Register(st, es + [e]) == Push(Register(st, es), e)
  {
    assert (es + [e])[..|es|] == es;
  }

  lemma FlagStep()
    ensures LexArg(Start, 0, "--help") == Lexed([Some(FlagToken(0))], map[FlagTag("help") := [0]], false)
  {
    var e := Entry(FlagToken(0), Some(FlagTag("help")));
    SplitNone("--help", '=');
    assert StartsWith("--help", SWITCH);
    assert !IsTerminatorArg("--help");
    assert "--help"[2..] == "help";
    assert "--help"[..2] == "--";
    assert OptionEntries(0, "--help") == [e];
    assert ArgEntries(0, "--help", false) == [e];
    assert Register(Start, [e]) == Push(Register(Start, []), e);
    assert Slot(Start.store, FlagTag("help")) + [0] == [0];
    assert Push(Start, e).store == map[FlagTag("help") := [0]];
  }

  /** A dashed argument `opt=v` whose option part has no `=`: the option's tokens, then `v` attached. */
  lemma DashedValueEntries(i: nat, arg: string, opt: string, v: string)
    requires arg == opt + "=" + v && StartsWith(opt, SWITCH) && '=' !in opt
    ensures ArgEntries(i, arg, false) == OptionEntries(i, opt) + [Entry(AttachedArgument(i, v), None)]
    ensures IsTerminatorArg(arg) <==> opt == FLAG
  {
    assert arg[|opt|] == '=' && arg[..|opt|] == opt && arg[|opt| + 1..] == v;
    SplitAt(arg, '=', |opt|);
    assert arg[..1] == opt[..1];
  }

  lemma CombinedSwitchesEntries(arg: string)
    requires arg == "-vhc=10"
    ensures ArgEntries(1, arg, false) ==
      [Entry(SwitchToken(1, 'v'), Some(SwitchTag("v"))), Entry(SwitchToken(1, 'h'), Some(SwitchTag("h"))),
       Entry(SwitchToken(1, 'c'), Some(SwitchTag("c"))), Entry(AttachedArgument(1, "10"), None)]
    ensures !IsTerminatorArg(arg)
  {
    assert arg == "-vhc" + "=" + "10";
    assert '=' !in "-vhc" && StartsWith("-vhc", SWITCH) && "-vhc" != FLAG;
    DashedValueEntries(1, arg, "-vhc", "10");
    VhcOption();
  }

  lemma VhcOption()
    ensures OptionEntries(1, "-vhc") ==
      [Entry(SwitchToken(1, 'v'), Some(SwitchTag("v"))), Entry(SwitchToken(1, 'h'), Some(SwitchTag("h"))),
       Entry(SwitchToken(1, 'c'), Some(SwitchTag("c")))]
  {
    VhcSwitches();
    assert "-vhc"[..2][1] == 'v';
    assert !StartsWith("-vhc", FLAG);
    assert "-vhc"[1..] == "vhc";
  }

  lemma VhcSwitches()
    ensures SwitchEntries(1, "vhc") ==
      [Entry(SwitchToken(1, 'v'), Some(SwitchTag("v"))), Entry(SwitchToken(1, 'h'), Some(SwitchTag("h"))),
       Entry(SwitchToken(1, 'c'), Some(SwitchTag("c")))]
  {
    var es := SwitchEntries(1, "vhc");
    assert |es| == 3;
    assert ['v'] == "v" && ['h'] == "h" && ['c'] == "c";
  }

  lemma CombinedSwitchesRegister(st: Lexed)
    requires st == Lexed([Some(FlagToken(0))], map[FlagTag("help") := [0]], false)
    ensures Register(st,
      [Entry(SwitchToken(1, 'v'), Some(SwitchTag("v"))), Entry(SwitchToken(1, 'h'), Some(SwitchTag("h"))),
       Entry(SwitchToken(1, 'c'), Some(SwitchTag("c"))), Entry(AttachedArgument(1, "10"), None)]) ==
      Lexed([Some(FlagToken(0)), Some(SwitchToken(1, 'v')), Some(SwitchToken(1, 'h')), Some(SwitchToken(1, 'c')),
             Some(AttachedArgument(1, "10"))],
            map[FlagTag("help") := [0], SwitchTag("v") := [1], SwitchTag("h") := [2], SwitchTag("c") := [3]], false)
  {
    var v := Entry(SwitchToken(1, 'v'), Some(SwitchTag("v")));
    var h := Entry(SwitchToken(1, 'h'), Some(SwitchTag("h")));
    var c := Entry(SwitchToken(1, 'c'), Some(SwitchTag("c")));
    var a := Entry(AttachedArgument(1, "10"), None);
    assert [] + [v] == [v] && [v] + [h] == [v, h] && [v, h] + [c] == [v, h, c] && [v, h, c] + [a] == [v, h, c, a];
    RegisterSnoc(st, [], v);
    var s1 := Register(st, [v]);
    assert Slot(st.store, SwitchTag("v")) + [|st.tokens|] == [1];
    assert s1 == Lexed(st.tokens + [Some(v.token)], st.store[SwitchTag("v") := [1]], false);
    RegisterSnoc(st, [v], h);
    var s2 := Register(st, [v, h]);
    assert Slot(s1.store, SwitchTag("h")) + [|s1.tokens|] == [2];
    assert s2 == Lexed(s1.tokens + [Some(h.token)], s1.store[SwitchTag("h") := [2]], false);
    RegisterSnoc(st, [v, h], c);
    var s3 := Register(st, [v, h, c]);
    assert Slot(s2.store, SwitchTag("c")) + [|s2.tokens|] == [3];
    assert s3 == Lexed(s2.tokens + [Some(c.token)], s2.store[SwitchTag("c") := [3]], false);
    RegisterSnoc(st, [v, h, c], a);
    assert Register(st, [v, h, c, a]) == Lexed(s3.tokens + [Some(a.token)], s3.store, false);
  }

  lemma CombinedSwitchesStep(st: Lexed)
    requires st == Lexed([Some(FlagToken(0))], map[FlagTag("help") := [0]], false)
    ensures LexArg(st, 1, "-vhc=10") ==
      Lexed([Some(FlagToken(0)), Some(SwitchToken(1, 'v')), Some(SwitchToken(1, 'h')), Some(SwitchToken(1, 'c')),
             Some(AttachedArgument(1, "10"))],
            map[FlagTag("help") := [0], SwitchTag("v") := [1], SwitchTag("h") := [2], SwitchTag("c") := [3]], false)
  {
    CombinedSwitchesEntries("-vhc=10");
    CombinedSwitchesRegister(st);
  }

  /** Combined switches with a value: one switch token per character, then the value, all from argument 1. */
  lemma CombinedSwitchesExample()
    ensures Tokenize(["orbit", "--help", "-vhc=10"]) ==
      Lexed([Some(FlagToken(0)), Some(SwitchToken(1, 'v')), Some(SwitchToken(1, 'h')), Some(SwitchToken(1, 'c')),
             Some(AttachedArgument(1, "10"))],
            map[FlagTag("help") := [0], SwitchTag("v") := [1], SwitchTag("h") := [2], SwitchTag("c") := [3]], false)
  {
    var rest := ["--help", "-vhc=10"];
    assert ["orbit", "--help", "-vhc=10"][1..] == rest;
    assert rest[1..] == ["-vhc=10"] && ["-vhc=10"][1..] == [];
    FlagStep();
    CombinedSwitchesStep(LexArg(Start, 0, "--help"));
  }

  /** `--=v` (with the tokenizer not yet terminated) gives the terminator and then `v` as an attached value. */
  lemma TerminatorValueStep(st: Lexed, i: nat, arg: string, v: string)
    requires !st.terminated && arg == FLAG + "=" + v
    ensures LexArg(st, i, arg) == Lexed(st.tokens + [Some(Terminator(i)), Some(AttachedArgument(i, v))], st.store, true)
  {
    assert StartsWith(FLAG, SWITCH) && StartsWith(FLAG, FLAG) && '=' !in FLAG;
    DashedValueEntries(i, arg, FLAG, v);
    var t := Entry(Terminator(i), None);
    var a := Entry(AttachedArgument(i, v), None);
    assert OptionEntries(i, FLAG) == [t];
    assert ArgEntries(i, arg, false) == [t, a];
    var st0 := st.(terminated := true);
    assert LexArg(st, i, arg) == Register(st0, [t, a]);
    assert [] + [t] == [t] && [t] + [a] == [t, a];
    RegisterSnoc(st0, [], t);
    RegisterSnoc(st0, [t], a);
  }

  /** A value can follow the terminator directly (`--=value`); the next argument is ignored. */
  lemma TerminatorValueExample()
    ensures Tokenize(["orbit", "--=value", "extra"]) ==
      Lexed([Some(Terminator(0)), Some(AttachedArgument(0, "value")), Some(Ignore(1, "extra"))], map[], true)
  {
    var rest := ["--=value", "extra"];
    assert ["orbit", "--=value", "extra"][1..] == rest;
    assert rest[1..] == ["extra"] && ["extra"][1..] == [];
    assert "--=value" == FLAG + "=" + "value";
    TerminatorValueStep(Start, 0, "--=value", "value");
    IgnoredStep(LexArg(Start, 0, "--=value"), 1, "extra");
  }

  /** A bare `-` is an empty switch, stored under the empty key. */
  lemma BareDashExample()
    ensures Tokenize(["orbit", "-"]) == Lexed([Some(EmptySwitch(0))], map[SwitchTag("") := [0]], false)
  {
    assert ["orbit", "-"][1..] == ["-"] && ["-"][1..] == [];
    SplitNone("-", '=');
    assert "-"[1..] == "";
    assert !IsTerminatorArg("-");
    var e := Entry(EmptySwitch(0), Some(SwitchTag("")));
    assert ArgEntries(0, "-", false) == [e];
    RegisterSnoc(Start, [], e);
    assert [] + [e] == [e];
    assert Slot(Start.store, SwitchTag("")) + [0] == [0];
  }

  lemma AbStep()
    ensures LexArg(Start, 0, "-ab") ==
      Lexed([Some(SwitchToken(0, 'a')), Some(SwitchToken(0, 'b'))], map[SwitchTag("a") := [0], SwitchTag("b") := [1]], false)
  {
    var a := Entry(SwitchToken(0, 'a'), Some(SwitchTag("a")));
    var b := Entry(SwitchToken(0, 'b'), Some(SwitchTag("b")));
    assert '=' !in "-ab";
    SplitNone("-ab", '=');
    assert "-ab"[..1] == SWITCH && "-ab"[..2] != FLAG;
    assert !IsTerminatorArg("-ab");
    assert "-ab"[1..] == "ab";
    assert ['a'] == "a" && ['b'] == "b";
    assert SwitchEntries(0, "ab") == [a, b];
    assert OptionEntries(0, "-ab") == [a, b];
    assert ArgEntries(0, "-ab", false) == [a, b];
    assert [] + [a] == [a] && [a] + [b] == [a, b];
    RegisterSnoc(Start, [], a);
    var s1 := Register(Start, [a]);
    assert Slot(Start.store, SwitchTag("a")) + [0] == [0];
    assert s1 == Lexed([Some(SwitchToken(0, 'a'))], map[SwitchTag("a") := [0]], false);
    RegisterSnoc(Start, [a], b);
    assert Slot(s1.store, SwitchTag("b")) + [1] == [1];
    assert Register(Start, [a, b]) == Lexed(s1.tokens + [Some(b.token)], s1.store[SwitchTag("b") := [1]], false);
  }

  lemma WordStep(st: Lexed, i: nat, w: string)
    requires !st.terminated && (|w| == 0 || w[0] != '-')
    ensures LexArg(st, i, w) == Lexed(st.tokens + [Some(UnattachedArgument(i, w))], st.store, false)
  {
    assert !StartsWith(w, SWITCH);
    assert !IsTerminatorArg(w);
    var e := Entry(UnattachedArgument(i, w), None);
    assert ArgEntries(i, w, false) == [e];
    RegisterSnoc(st, [], e);
    assert [] + [e] == [e];
  }

  /** Combined switches share the origin of their argument; the following word has the next origin. */
  lemma CombinedWordExample()
    ensures Tokenize(["prog", "-ab", "cmd"]) ==
      Lexed([Some(SwitchToken(0, 'a')), Some(SwitchToken(0, 'b')), Some(UnattachedArgument(1, "cmd"))],
            map[SwitchTag("a") := [0], SwitchTag("b") := [1]], false)
  {
    var rest := ["-ab", "cmd"];
    assert ["prog", "-ab", "cmd"][1..] == rest;
    assert rest[1..] == ["cmd"] && ["cmd"][1..] == [];
    AbStep();
    WordStep(LexArg(Start, 0, "-ab"), 1, "cmd");
  }
}
