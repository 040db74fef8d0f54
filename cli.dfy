/**
 * The option lists the two entry scripts declare with `click.option`, the
 * `--flag=value` words the sweep handlers pass them, and the way those
 * words are read back into typed values.
 */
module Cli {
  import opened Wrappers
  import opened Text

  /** The click type of an option: given by `type=` or inferred from the default. */
  datatype Kind = KText | KInt | KBool

  datatype Value = VText(text: string) | VInt(number: int) | VBool(flag: bool)

  /** A required option, or one that falls back to a default. */
  datatype Presence = Required | Default(value: Value)

  /** `click.option('--flag', type=kind, required=... / default=...)`. */
  datatype Decl = Decl(flag: string, kind: Kind, presence: Presence)

  predicate HasKind(v: Value, k: Kind) {
    match k
    case KText => v.VText?
    case KInt => v.VInt?
    case KBool => v.VBool?
  }

  /** A declaration whose default, if any, has the option's type. */
  predicate WellTyped(d: Decl) {
    d.presence.Default? ==> HasKind(d.presence.value, d.kind)
  }

  /** What an f-string `{value}` renders: Python's `str(value)`. */
  function Show(v: Value): string {
    match v
    case VText(s) => s
    case VInt(n) => IntToString(n)
    case VBool(b) => BoolToString(b)
  }

  /** The words click's boolean type reads as true, after lower-casing. */
  const TrueWords: set<string> := {"1", "true", "t", "yes", "y", "on"}
  /** The words click's boolean type reads as false, after lower-casing. */
  const FalseWords: set<string> := {"0", "false", "f", "no", "n", "off"}

  /** click's conversion of the raw text of an option to its type. */
  function Convert(k: Kind, raw: string): (r: Option<Value>)
    ensures r.Some? ==> HasKind(r.value, k)
  {
    match k
    case KText => Some(VText(raw))
    case KInt =>
      var n :- ParseInt(raw);
      Some(VInt(n))
    case KBool =>
      var word := Lower(raw);
      if word in TrueWords then Some(VBool(true))
      else if word in FalseWords then Some(VBool(false))
      else None
  }

  /** Every value is read back from its own rendering. */
  lemma ConvertShow(v: Value, k: Kind)
    requires HasKind(v, k)
    ensures Convert(k, Show(v)) == Some(v)
  {
    match v
    case VText(_) =>
    case VInt(n) => IntRoundTrip(n);
    case VBool(b) =>
      if b {
        assert Lower("True") == "true";
      } else {
        assert Lower("False") == "false";
      }
  }

  /** The command-line word `--flag=raw`. */
  function Arg(flag: string, raw: string): string {
    "--" + flag + "=" + raw
  }

  /** Reads a word `--flag=raw` back into its flag and raw text, cutting at the first `=`. */
  function SplitArg(word: string): (r: Option<(string, string)>)
    ensures r.Some? ==> '=' !in r.value.0 && word == Arg(r.value.0, r.value.1)
  {
    var rest :- StripPrefix("--", word);
    var (flag, tail) := Span(rest, '=');
    if tail == [] then None
    else
      assert tail == "=" + tail[1..];
      Some((flag, tail[1..]))
  }

  /** A word built from a flag without `=` splits back into that flag and its text. */
  lemma SplitArgOfArg(flag: string, raw: string)
    requires '=' !in flag
    ensures SplitArg(Arg(flag, raw)) == Some((flag, raw))
  {
    var rest := flag + "=" + raw;
    assert Arg(flag, raw) == "--" + rest;
    StripPrefixOf("--", rest);
    assert rest == flag + ("=" + raw);
    SpanOf(flag, "=" + raw, '=');
  }

  /** The flags declared, in order. */
  function Flags(decls: seq<Decl>): (fs: seq<string>)
    ensures |fs| == |decls|
    ensures forall i :: 0 <= i < |decls| ==> fs[i] == decls[i].flag
  {
    seq(|decls|, i requires 0 <= i < |decls| => decls[i].flag)
  }

  /** Every word is a `--flag=raw` word naming a declared flag. */
  predicate Accepted(flags: seq<string>, args: seq<string>) {
    forall i :: 0 <= i < |args| ==> SplitArg(args[i]).Some? && SplitArg(args[i]).value.0 in flags
  }

  /** The raw text of the last word passing `flag`: a repeated option keeps its last value. */
  function Passed(args: seq<string>, flag: string): (r: Option<string>)
    ensures r.Some? ==> Arg(flag, r.value) in args
  {
    if args == [] then None
    else
      var word := args[|args| - 1];
      match SplitArg(word)
      case Some((f, raw)) =>
        if f == flag then Some(raw) else Passed(args[..|args| - 1], flag)
      case None => Passed(args[..|args| - 1], flag)
  }

  /** A word that does not pass `flag`: not a `--flag=raw` word, or one naming another flag. */
  predicate Misses(word: string, flag: string) {
    SplitArg(word).None? || SplitArg(word).value.0 != flag
  }

  /** An option no word passes is not found. */
  lemma {:induction false} PassedAbsent(args: seq<string>, flag: string)
    requires forall i :: 0 <= i < |args| ==> Misses(args[i], flag)
    ensures Passed(args, flag).None?
  {
    if args != [] {
      PassedAbsent(args[..|args| - 1], flag);
    }
  }

  /** The last word passing `flag` wins, whatever words come before it. */
  lemma {:induction false} PassedLastWins(args: seq<string>, flag: string, raw: string, rest: seq<string>)
    requires '=' !in flag
    requires forall i :: 0 <= i < |rest| ==> Misses(rest[i], flag)
    ensures Passed(args + [Arg(flag, raw)] + rest, flag) == Some(raw)
  {
    var all := args + [Arg(flag, raw)] + rest;
    if rest == [] {
      assert all[..|all| - 1] == args;
      SplitArgOfArg(flag, raw);
    } else {
      var n := |rest| - 1;
      assert all[..|all| - 1] == args + [Arg(flag, raw)] + rest[..n];
      assert all[|all| - 1] == rest[n];
      PassedLastWins(args, flag, raw, rest[..n]);
    }
  }

  /** The value of one option: its passed text converted, else its default; a required option not passed fails. */
  function Read(d: Decl, args: seq<string>): (r: Option<Value>)
    ensures r.Some? ==> HasKind(r.value, d.kind) || (Passed(args, d.flag).None? && d.presence.Default? && r.value == d.presence.value)
  {
    match Passed(args, d.flag)
    case Some(raw) => Convert(d.kind, raw)
    case None =>
      match d.presence
      case Required => None
      case Default(v) => Some(v)
  }

  /** The values of all declared options, in declaration order. */
  function ReadEach(decls: seq<Decl>, args: seq<string>): (r: Option<seq<Value>>)
    ensures r.Some? ==> |r.value| == |decls|
    ensures r.Some? && (forall i :: 0 <= i < |decls| ==> WellTyped(decls[i])) ==>
      forall i :: 0 <= i < |decls| ==> HasKind(r.value[i], decls[i].kind)
  {
    if decls == [] then Some([])
    else
      var v :- Read(decls[0], args);
      var rest :- ReadEach(decls[1..], args);
      Some([v] + rest)
  }

  /** All options read successfully exactly when each one does, and then in order. */
  lemma {:induction false} ReadEachIff(decls: seq<Decl>, args: seq<string>, vs: seq<Value>)
    ensures ReadEach(decls, args) == Some(vs) <==>
      |vs| == |decls| && forall i :: 0 <= i < |decls| ==> Read(decls[i], args) == Some(vs[i])
  {
    if decls != [] && |vs| == |decls| {
      ReadEachIff(decls[1..], args, vs[1..]);
      assert vs == [vs[0]] + vs[1..];
      if forall i :: 0 <= i < |decls| ==> Read(decls[i], args) == Some(vs[i]) {
        assert Read(decls[0], args) == Some(vs[0]);
        assert forall i :: 0 <= i < |decls| - 1 ==> Read(decls[1..][i], args) == Some(vs[1..][i]) by {
          forall i | 0 <= i < |decls| - 1 ensures Read(decls[1..][i], args) == Some(vs[1..][i]) {
            assert decls[1..][i] == decls[i + 1] && vs[1..][i] == vs[i + 1];
          }
        }
      }
    }
  }

  /**
   * What the command receives for `args`: nothing when a word is not a
   * declared `--flag=raw` word, a required option is missing or a text does
   * not convert; otherwise every option's value.
   */
  function ReadAll(decls: seq<Decl>, args: seq<string>): (r: Option<seq<Value>>)
    ensures r.Some? ==> |r.value| == |decls|
    ensures r.Some? && (forall i :: 0 <= i < |decls| ==> WellTyped(decls[i])) ==>
      forall i :: 0 <= i < |decls| ==> HasKind(r.value[i], decls[i].kind)
  {
    if Accepted(Flags(decls), args) then ReadEach(decls, args) else None
  }

  /** The words for a list of flag and value pairs, in order. */
  function Args(pairs: seq<(string, Value)>): (args: seq<string>)
    ensures |args| == |pairs|
    ensures forall i :: 0 <= i < |pairs| ==> args[i] == Arg(pairs[i].0, Show(pairs[i].1))
  {
    if pairs == [] then [] else Args(pairs[..|pairs| - 1]) + [Arg(pairs[|pairs| - 1].0, Show(pairs[|pairs| - 1].1))]
  }

  /** The value paired last with `flag`. */
  function Lookup(pairs: seq<(string, Value)>, flag: string): Option<Value> {
    if pairs == [] then None
    else if pairs[|pairs| - 1].0 == flag then Some(pairs[|pairs| - 1].1)
    else Lookup(pairs[..|pairs| - 1], flag)
  }

  /** No flag is paired twice. */
  predicate DistinctFlags(pairs: seq<(string, Value)>) {
    forall i, j :: 0 <= i < j < |pairs| ==> pairs[i].0 != pairs[j].0
  }

  /** Without repeated flags, each flag looks up its own value. */
  lemma {:induction false} LookupOfDistinct(pairs: seq<(string, Value)>, i: nat)
    requires DistinctFlags(pairs) && i < |pairs|
    ensures Lookup(pairs, pairs[i].0) == Some(pairs[i].1)
  {
    var n := |pairs| - 1;
    if i < n {
      assert pairs[n].0 != pairs[i].0;
      assert pairs[..n][i] == pairs[i];
      assert DistinctFlags(pairs[..n]) by {
        forall a, b | 0 <= a < b < n
          ensures pairs[..n][a].0 != pairs[..n][b].0
        {
          assert pairs[..n][a] == pairs[a] && pairs[..n][b] == pairs[b];
        }
      }
      LookupOfDistinct(pairs[..n], i);
    }
  }

  /** A flag paired with nothing looks up nothing. */
  lemma {:induction false} LookupAbsent(pairs: seq<(string, Value)>, flag: string)
    requires forall i :: 0 <= i < |pairs| ==> pairs[i].0 != flag
    ensures Lookup(pairs, flag) == None
  {
    if pairs != [] {
      var n := |pairs| - 1;
      assert forall i :: 0 <= i < n ==> pairs[..n][i] == pairs[i];
      LookupAbsent(pairs[..n], flag);
    }
  }

  /** The text a flag is passed with is the rendering of the value it was paired with last. */
  lemma {:induction false} PassedOfArgs(pairs: seq<(string, Value)>, flag: string)
    requires forall i :: 0 <= i < |pairs| ==> '=' !in pairs[i].0
    ensures Passed(Args(pairs), flag) == match Lookup(pairs, flag) case Some(v) => Some(Show(v)) case None => None
  {
    if pairs != [] {
      var n := |pairs| - 1;
      var args := Args(pairs);
      assert args[..n] == Args(pairs[..n]);
      SplitArgOfArg(pairs[n].0, Show(pairs[n].1));
      PassedOfArgs(pairs[..n], flag);
    }
  }

  /** Words built from declared flags without `=` are all accepted. */
  lemma ArgsAccepted(flags: seq<string>, pairs: seq<(string, Value)>)
    requires forall i :: 0 <= i < |pairs| ==> '=' !in pairs[i].0 && pairs[i].0 in flags
    ensures Accepted(flags, Args(pairs))
  {
    forall i | 0 <= i < |pairs|
      ensures SplitArg(Args(pairs)[i]) == Some((pairs[i].0, Show(pairs[i].1)))
    {
      SplitArgOfArg(pairs[i].0, Show(pairs[i].1));
    }
  }

  /**
   * An option passed with a value of its type reads as that value; one not
   * passed that has a default reads as the default.
   */
  lemma ReadOfArgs(d: Decl, pairs: seq<(string, Value)>)
    requires forall i :: 0 <= i < |pairs| ==> '=' !in pairs[i].0
    ensures Lookup(pairs, d.flag).Some? && HasKind(Lookup(pairs, d.flag).value, d.kind) ==>
      Read(d, Args(pairs)) == Lookup(pairs, d.flag)
    ensures Lookup(pairs, d.flag).None? ==>
      Read(d, Args(pairs)) == if d.presence.Default? then Some(d.presence.value) else None
  {
    PassedOfArgs(pairs, d.flag);
    match Lookup(pairs, d.flag)
    case Some(v) =>
      if HasKind(v, d.kind) {
        ConvertShow(v, d.kind);
      }
    case None =>
  }

  /**
   * Words built from declared flags without `=` read as `vs` when every
   * declared option reads as its value in `vs`.
   */
  lemma ReadAllOfArgs(decls: seq<Decl>, pairs: seq<(string, Value)>, vs: seq<Value>)
    requires forall i :: 0 <= i < |pairs| ==> '=' !in pairs[i].0 && pairs[i].0 in Flags(decls)
    requires |vs| == |decls|
    requires forall i :: 0 <= i < |decls| ==> Read(decls[i], Args(pairs)) == Some(vs[i])
    ensures ReadAll(decls, Args(pairs)) == Some(vs)
  {
    ArgsAccepted(Flags(decls), pairs);
    ReadEachIff(decls, Args(pairs), vs);
  }

  /** An option passed once with a value of its type reads as that value. */
  lemma ReadPassed(d: Decl, pairs: seq<(string, Value)>, i: nat)
    requires forall j :: 0 <= j < |pairs| ==> '=' !in pairs[j].0
    requires DistinctFlags(pairs) && i < |pairs|
    requires pairs[i].0 == d.flag && HasKind(pairs[i].1, d.kind)
    ensures Read(d, Args(pairs)) == Some(pairs[i].1)
  {
    LookupOfDistinct(pairs, i);
    ReadOfArgs(d, pairs);
  }

  /** An option not passed reads as its default. */
  lemma ReadDefault(d: Decl, pairs: seq<(string, Value)>)
    requires forall j :: 0 <= j < |pairs| ==> '=' !in pairs[j].0 && pairs[j].0 != d.flag
    requires d.presence.Default?
    ensures Read(d, Args(pairs)) == Some(d.presence.value)
  {
    LookupAbsent(pairs, d.flag);
    ReadOfArgs(d, pairs);
  }
}
