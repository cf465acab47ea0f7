/**
 * The ledger of requested arguments and the value lists the option and flag
 * queries work on (src/cli.rs:587-639, 666-707, 734-743).
 */
module Ledger {
  import opened Wrappers
  import opened Args

  /** `known_args_as_flag_names`: the flag names of every flag and option requested so far, in order. */
  function KnownFlagNames(known: seq<Arg>): (names: seq<string>)
    ensures |names| <= |known|
    ensures forall n :: n in names <==>
      exists k :: 0 <= k < |known| && AsFlag(known[k]).Some? && AsFlag(known[k]).value.name == n
    decreases |known|
  {
    if |known| == 0 then []
    else
      var rest := KnownFlagNames(known[1..]);
      assert forall k :: 0 < k < |known| ==> known[k] == known[1..][k - 1];
      match AsFlag(known[0])
      case Some(f) => [f.name] + rest
      case None => rest
  }

  /** The names keep the ledger's order: the names of a concatenation are the concatenated names. */
  lemma {:induction false} KnownFlagNamesAppend(a: seq<Arg>, b: seq<Arg>)
    ensures KnownFlagNames(a + b) == KnownFlagNames(a) + KnownFlagNames(b)
    decreases |a|
  {
    if |a| == 0 {
      assert a + b == b;
    } else {
      assert (a + b)[0] == a[0];
      assert (a + b)[1..] == a[1..] + b;
      KnownFlagNamesAppend(a[1..], b);
    }
  }

  /** Requesting a flag or an option adds its name at the end; a positional adds nothing. */
  lemma KnownFlagNamesPush(known: seq<Arg>, a: Arg)
    ensures KnownFlagNames(known + [a]) == KnownFlagNames(known) + (if AsFlag(a).Some? then [AsFlag(a).value.name] else [])
  {
    KnownFlagNamesAppend(known, [a]);
    assert [a][1..] == [];
  }

    /** The first value that is present, as `find(|p| p.is_some())` gives it. */
  function FirstSome(vals: seq<Option<string>>): (r: Option<string>)
    ensures r.None? <==> forall k :: 0 <= k < |vals| ==> vals[k].None?
    ensures r.Some? ==> exists k :: 0 <= k < |vals| && vals[k] == r && forall j :: 0 <= j < k ==> vals[j].None?
    decreases |vals|
  {
    if |vals| == 0 then None
    else if vals[0].Some? then vals[0]
    else
      var r := FirstSome(vals[1..]);
      assert forall k :: 0 < k < |vals| ==> vals[k] == vals[1..][k - 1];
      r
  }

  /** The outcome of converting every value of an option: all converted, or the first failure. */
  datatype Parsed<T> = AllParsed(items: seq<T>) | MissingValue | Unparsable(word: string, reason: string)

  predicate Parses<T>(v: Option<string>, parse: string -> Result<T, string>)
  {
    v.Some? && parse(v.value).Ok?
  }

  /** The first value that is missing or fails to convert is at `k`. */
  predicate FailsFirstAt<T>(vals: seq<Option<string>>, parse: string -> Result<T, string>, k: int)
  {
    0 <= k < |vals| && !Parses(vals[k], parse) && forall j :: 0 <= j < k ==> Parses(vals[j], parse)
  }

  /** The conversion loop of `check_option_all`: converts in order and stops at the first failure. */
  function ParseAll<T>(vals: seq<Option<string>>, parse: string -> Result<T, string>): (r: Parsed<T>)
    ensures r.AllParsed? <==> forall k :: 0 <= k < |vals| ==> Parses(vals[k], parse)
    ensures r.AllParsed? ==> |r.items| == |vals| && forall k :: 0 <= k < |vals| ==> parse(vals[k].value) == Ok(r.items[k])
    ensures r.MissingValue? ==> exists k :: FailsFirstAt(vals, parse, k) && vals[k].None?
    ensures r.Unparsable? ==>
      exists k :: FailsFirstAt(vals, parse, k) && vals[k] == Some(r.word) && parse(r.word) == Err(r.reason)
    decreases |vals|
  {
    if |vals| == 0 then AllParsed([])
    else if vals[0].None? then MissingValue
    else
      match parse(vals[0].value)
      case Err(why) => Unparsable(vals[0].value, why)
      case Ok(x) =>
        var r := ParseAll(vals[1..], parse);
        assert forall k :: 0 < k < |vals| ==> vals[k] == vals[1..][k - 1];
        assert forall k :: FailsFirstAt(vals[1..], parse, k) ==> FailsFirstAt(vals, parse, k + 1);
        match r
        case AllParsed(items) => AllParsed([x] + items)
        case _ => r
  }

  /** Only one position can be the first failure. */
  lemma FailsFirstUnique<T>(vals: seq<Option<string>>, parse: string -> Result<T, string>, j: int, k: int)
    requires FailsFirstAt(vals, parse, j) && FailsFirstAt(vals, parse, k)
    ensures j == k
  {
  }

  /** The outcome is decided by the first failing value. */
  lemma ParseAllFailure<T>(vals: seq<Option<string>>, parse: string -> Result<T, string>, k: int)
    requires FailsFirstAt(vals, parse, k)
    ensures vals[k].None? ==> ParseAll(vals, parse) == MissingValue
    ensures vals[k].Some? ==> ParseAll(vals, parse) == Unparsable(vals[k].value, parse(vals[k].value).error)
  {
    var r := ParseAll(vals, parse);
    assert !r.AllParsed?;
    if r.MissingValue? {
      var m :| FailsFirstAt(vals, parse, m) && vals[m].None?;
      FailsFirstUnique(vals, parse, m, k);
    } else {
      var m :| FailsFirstAt(vals, parse, m) && vals[m] == Some(r.word) && parse(r.word) == Err(r.reason);
      FailsFirstUnique(vals, parse, m, k);
    }
  }
}
