/**
 * The breakpoint `match_command` hands to `capture_bad_flag`
 * (src/cli.rs:307-319). The source passes the origin index of the command
 * word (which argument it came from), but `find_first_flag_left` compares it
 * with positions in the token vector (src/cli.rs:749-764). Combined switches
 * give several tokens per argument, so positions run ahead of origins and a
 * switch left before the command can be missed.
 */
module Findings {
  import opened Wrappers
  import opened Args
  import opened Tokens
  import opened Stream

  /** The flag `-a` / `--a` that the program claims before matching a subcommand. */
  const ClaimedA: Flag := FlagSwitch(NewFlag("a"), 'a')

  /** The vector and store of `prog -ab cmd` once `-a` is claimed. */
  lemma ClaimedState()
    ensures var lx := Tokenize(["prog", "-ab", "cmd"]);
      Pulled(lx.tokens, FlagLocs(lx.store, ClaimedA), false) ==
        [None, Some(SwitchToken(0, 'b')), Some(UnattachedArgument(1, "cmd"))] &&
      lx.store - FlagTags(ClaimedA) == map[SwitchTag("b") := [1]] &&
      Wf(Pulled(lx.tokens, FlagLocs(lx.store, ClaimedA), false), lx.store - FlagTags(ClaimedA))
  {
    CombinedWordExample();
    TokenizeWf(["prog", "-ab", "cmd"]);
    var lx := Tokenize(["prog", "-ab", "cmd"]);
    ClaimLiteral(lx.tokens, lx.store);
    ClaimWf(lx.tokens, lx.store, ClaimedA, false);
  }

  lemma ClaimLiteral(tokens: seq<Option<Token>>, store: map<Tag, seq<nat>>)
    requires tokens == [Some(SwitchToken(0, 'a')), Some(SwitchToken(0, 'b')), Some(UnattachedArgument(1, "cmd"))]
    requires store == map[SwitchTag("a") := [0], SwitchTag("b") := [1]]
    ensures Pulled(tokens, FlagLocs(store, ClaimedA), false) == [None, Some(SwitchToken(0, 'b')), Some(UnattachedArgument(1, "cmd"))]
    ensures store - FlagTags(ClaimedA) == map[SwitchTag("b") := [1]]
  {
    assert ['a'] == "a";
    assert FlagTags(ClaimedA) == {FlagTag("a"), SwitchTag("a")};
    assert FlagLocs(store, ClaimedA) == [0];
    assert !Taken(tokens, [0], false, 1) && !Taken(tokens, [0], false, 2);
  }

  /** What the leftover check sees in the state of ClaimedState, under either breakpoint. */
  lemma ClaimedLeftovers()
    ensures var ts: seq<Option<Token>> := [None, Some(SwitchToken(0, 'b')), Some(UnattachedArgument(1, "cmd"))];
      var st := map[SwitchTag("b") := [1]];
      Words(ts) == ["cmd"] && FirstWordOrigin(ts) == Some(1) && CommandPosition(ts) == 2 &&
      Before(st, 1) == {} && Before(st, 2) == {SwitchTag("b")} && FlagBeforeCommand(ts, 1)
  {
    var ts: seq<Option<Token>> := [None, Some(SwitchToken(0, 'b')), Some(UnattachedArgument(1, "cmd"))];
    var st := map[SwitchTag("b") := [1]];
    assert ts[1..] == [Some(SwitchToken(0, 'b')), Some(UnattachedArgument(1, "cmd"))];
    assert ts[1..][1..] == [Some(UnattachedArgument(1, "cmd"))] && ts[1..][1..][1..] == [];
    assert Words(ts) == ["cmd"];
    assert FirstStop(ts) == Some(2);
    assert First(st, SwitchTag("b")) == 1;
  }

  /**
   * `prog -ab cmd` with `-a` claimed: `-b` is still left before `cmd`. The
   * breakpoint as written (origin 1) sees no leftover, so `prog -ab cmd` is
   * accepted; the command's position (2) reports `-b`.
   */
  lemma AsWrittenMissesSwitch()
    ensures var lx := Tokenize(["prog", "-ab", "cmd"]);
      var ts := Pulled(lx.tokens, FlagLocs(lx.store, ClaimedA), false);
      var st := lx.store - FlagTags(ClaimedA);
      Wf(ts, st) && Words(ts) == ["cmd"] &&
      FirstWordOrigin(ts) == Some(1) && Before(st, FirstWordOrigin(ts).value) == {} &&
      FlagBeforeCommand(ts, 1) &&
      CommandPosition(ts) == 2 && Before(st, CommandPosition(ts)) == {SwitchTag("b")}
  {
    ClaimedState();
    ClaimedLeftovers();
  }
}
