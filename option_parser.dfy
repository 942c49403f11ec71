/**
 * The rendezvous server's command-line parser: a getopt in the GNU style
 * with short options ("-o", "-ofoo", grouped "-abc"), long options
 * ("--opt", "--opt=value", "--opt value", unique abbreviations) and two
 * modes chosen by the first character of the short-option list.
 *
 * A Java exception is the `GetoptException` outcome, carrying the same
 * message; a Java null value is `None`.
 */
module OptionParser {
  import opened Wrappers

  datatype ArgKind = NoArgument | MandatoryArgument | OptionalArgument

  /**
   * What happens to an argument that is not an option: it is collected in
   * the remaining list (default), reported as the value of option ""
   * (list starting with '-'), or it ends option processing (list starting
   * with '+').
   */
  datatype Mode = CollectNonOptions | HandleNonOption | StopAtFirstNonOption

  datatype Outcome<T> = Ok(value: T) | GetoptException(message: string)

  /** One parsed option: its name with the leading "-" or "--", and its value. */
  type Pair = (string, Option<string>)

  datatype Parsed = Parsed(options: seq<Pair>, remaining: seq<string>)

  datatype Config = Config(mode: Mode, short: map<char, ArgKind>, long: map<string, ArgKind>)

  // ---------------------------------------------------------------------
  // The option tables
  // ---------------------------------------------------------------------

  /**
   * The short-option table built from `o[i..]` on top of `m`. A character
   * already in the table is skipped on its own, so the colons that follow
   * it are read as option characters.
   */
  function ShortTable(o: string, i: nat, m: map<char, ArgKind>): map<char, ArgKind>
    requires i <= |o|
    decreases |o| - i
  {
    if i == |o| then m
    else if o[i] in m then ShortTable(o, i + 1, m)
    else if i + 2 < |o| && o[i + 1] == ':' && o[i + 2] == ':' then
      ShortTable(o, i + 3, m[o[i] := OptionalArgument])
    else if i + 1 < |o| && o[i + 1] == ':' then
      ShortTable(o, i + 2, m[o[i] := MandatoryArgument])
    else
      ShortTable(o, i + 1, m[o[i] := NoArgument])
  }

  /** Where the option characters start: after a leading mode character. */
  function ModeOf(o: string): Mode
    requires |o| > 0
  {
    if o[0] == '-' then HandleNonOption
    else if o[0] == '+' then StopAtFirstNonOption
    else CollectNonOptions
  }

  function ShortConfig(options: Option<string>): (Mode, map<char, ArgKind>)
    requires options.Some? ==> |options.value| > 0
  {
    match options
    case None => (CollectNonOptions, map[])
    case Some(o) =>
      var mode := ModeOf(o);
      (mode, ShortTable(o, if mode == CollectNonOptions then 0 else 1, map[]))
  }

  function EndsWith(s: string, suffix: string): bool {
    |suffix| <= |s| && s[|s| - |suffix|..] == suffix
  }

  /** The name and kind one long-option declaration stands for. */
  function LongEntry(o: string): (string, ArgKind) {
    if EndsWith(o, "::") then (o[..|o| - 2], OptionalArgument)
    else if EndsWith(o, ":") then (o[..|o| - 1], MandatoryArgument)
    else (o, NoArgument)
  }

  /** The long-option table built from `l[i..]` on top of `m`; the first declaration of a name wins. */
  function LongTable(l: seq<string>, i: nat, m: map<string, ArgKind>): map<string, ArgKind>
    requires i <= |l|
    decreases |l| - i
  {
    if i == |l| then m
    else
      var e := LongEntry(l[i]);
      LongTable(l, i + 1, if e.0 in m then m else m[e.0 := e.1])
  }

  function LongConfig(longOptions: Option<seq<string>>): map<string, ArgKind> {
    match longOptions
    case None => map[]
    case Some(l) => LongTable(l, 0, map[])
  }

  // ---------------------------------------------------------------------
  // Long-option lookup
  // ---------------------------------------------------------------------

  /** The long options `key` abbreviates. */
  function Prefixed(m: map<string, ArgKind>, key: string): set<string> {
    set k | k in m && key <= k
  }

  /**
   * An exact name is taken as is; otherwise the one option `key` is a
   * prefix of; otherwise the lookup fails, as ambiguous when several
   * options start with `key`.
   */
  ghost function GetKeySpec(m: map<string, ArgKind>, key: string): (r: Outcome<string>)
    ensures r.Ok? ==> r.value in m && key <= r.value
    ensures r.Ok? && r.value != key ==> key !in m && Prefixed(m, key) == {r.value}
    ensures r.GetoptException? ==> key !in m
  {
    if key in m then Ok(key)
    else
      var p := Prefixed(m, key);
      if |p| == 0 then GetoptException("Unknow option --" + key)
      else if |p| == 1 then
        var k :| k in p;
        assert p == {k} by {
          forall k' | k' in p ensures k' == k {
            if k' != k { SubsetCard({k, k'}, p); }
          }
        }
        Ok(k)
      else GetoptException("Option --" + key + " is ambiguous")
  }

  /** The lookup, as a scan of the table's names. */
  method GetKey(m: map<string, ArgKind>, key: string) returns (r: Outcome<string>)
    ensures r == GetKeySpec(m, key)
  {
    if key in m {
      return Ok(key);
    }
    var match_: Option<string> := None;
    var todo := m.Keys;
    while todo != {}
      invariant todo <= m.Keys
      invariant match_.None? ==> Prefixed(m, key) <= todo
      invariant match_.Some? ==> Prefixed(m, key) <= todo + {match_.value}
      invariant match_.Some? ==> match_.value in Prefixed(m, key) && match_.value !in todo
      decreases todo
    {
      var k :| k in todo;
      todo := todo - {k};
      if key <= k {
        if match_.None? {
          match_ := Some(k);
        } else {
          SubsetCard({match_.value, k}, Prefixed(m, key));
          return GetoptException("Option --" + key + " is ambiguous");
        }
      }
    }
    if match_.Some? {
      assert Prefixed(m, key) == {match_.value};
      return Ok(match_.value);
    }
    assert Prefixed(m, key) == {};
    return GetoptException("Unknow option --" + key);
  }

  // ---------------------------------------------------------------------
  // The argument scan
  // ---------------------------------------------------------------------

  /** The first index of `c` in `s`, as Java's indexOf. */
  function IndexOf(s: string, c: char): (r: Option<nat>)
    ensures r.None? ==> c !in s
    ensures r.Some? ==> r.value < |s| && s[r.value] == c && c !in s[..r.value]
  {
    if |s| == 0 then None
    else if s[0] == c then Some(0)
    else
      match IndexOf(s[1..], c)
      case None => None
      case Some(k) =>
        assert s[1..][..k] == s[1..k + 1];
        Some(k + 1)
  }

  /**
   * The long option `args[i]` (which starts with "--" and is not "--"):
   * the pair it yields and the index of the last argument it used.
   */
  ghost function LongArg(args: seq<string>, i: nat, long: map<string, ArgKind>): (r: Outcome<(Pair, nat)>)
    requires i < |args| && "--" <= args[i] && args[i] != "--"
    ensures r.Ok? ==> i <= r.value.1 < |args|
  {
    var arg := args[i];
    match IndexOf(arg, '=')
    case Some(index) =>
      assert arg[0] == '-' && arg[1] == '-';
      (match GetKeySpec(long, arg[2..index])
       case GetoptException(e) => GetoptException(e)
       case Ok(key) =>
         if long[key] != NoArgument then Ok((("--" + key, Some(arg[index + 1..])), i))
         else GetoptException("Option --" + key + " takes no argument"))
    case None =>
      match GetKeySpec(long, arg[2..])
      case GetoptException(e) => GetoptException(e)
      case Ok(key) =>
        if long[key] == MandatoryArgument then
          if i + 1 < |args| then Ok((("--" + key, Some(args[i + 1])), i + 1))
          else GetoptException("Option --" + key + " takes an argument")
        else Ok((("--" + key, None), i))
  }

  /**
   * The rest `token` of the short-option group `args[i]`, appended to
   * `opts`: the options list afterwards and the index of the last
   * argument used. A character with an argument ends the group.
   */
  function ShortToken(args: seq<string>, i: nat, token: string, short: map<char, ArgKind>, opts: seq<Pair>)
    : (r: Outcome<(seq<Pair>, nat)>)
    requires i < |args|
    ensures r.Ok? ==> i <= r.value.1 < |args|
    decreases |token|
  {
    if |token| == 0 then Ok((opts, i))
    else
      var c := token[0];
      if c !in short then GetoptException("Unknow option -" + [c])
      else match short[c]
        case MandatoryArgument =>
          if |token| > 1 then Ok((opts + [("-" + [c], Some(token[1..]))], i))
          else if i + 1 < |args| then Ok((opts + [("-" + [c], Some(args[i + 1]))], i + 1))
          else GetoptException("Option -" + [c] + " takes an argument")
        case OptionalArgument =>
          Ok((opts + [("-" + [c], if |token| > 1 then Some(token[1..]) else None)], i))
        case NoArgument =>
          ShortToken(args, i, token[1..], short, opts + [("-" + [c], None)])
  }

  /** The scan of `args[i..]`, given what the earlier arguments yielded. */
  ghost function GetoptFrom(args: seq<string>, i: nat, cfg: Config, opts: seq<Pair>, rem: seq<string>)
    : Outcome<Parsed>
    requires i <= |args|
    decreases |args| - i
  {
    if i == |args| then Ok(Parsed(opts, rem))
    else if args[i] == "--" then Ok(Parsed(opts, rem + args[i + 1..]))
    else if "--" <= args[i] then
      (match LongArg(args, i, cfg.long)
       case GetoptException(e) => GetoptException(e)
       case Ok((p, j)) => GetoptFrom(args, j + 1, cfg, opts + [p], rem))
    else if "-" <= args[i] then
      (match ShortToken(args, i, args[i][1..], cfg.short, opts)
       case GetoptException(e) => GetoptException(e)
       case Ok((o, j)) => GetoptFrom(args, j + 1, cfg, o, rem))
    else if cfg.mode == StopAtFirstNonOption then Ok(Parsed(opts, rem + args[i..]))
    else if cfg.mode == HandleNonOption then GetoptFrom(args, i + 1, cfg, opts + [("", Some(args[i]))], rem)
    else GetoptFrom(args, i + 1, cfg, opts, rem + [args[i]])
  }

  ghost function ConfigOf(options: Option<string>, longOptions: Option<seq<string>>): Config
    requires options.Some? ==> |options.value| > 0
  {
    var (mode, short) := ShortConfig(options);
    Config(mode, short, LongConfig(longOptions))
  }

  ghost function GetoptSpec(args: seq<string>, options: Option<string>, longOptions: Option<seq<string>>)
    : Outcome<Parsed>
    requires options.Some? ==> |options.value| > 0
  {
    GetoptFrom(args, 0, ConfigOf(options, longOptions), [], [])
  }

  // ---------------------------------------------------------------------
  // The parser as the program runs it
  // ---------------------------------------------------------------------

  method ParseShortOptions(options: Option<string>) returns (mode: Mode, short: map<char, ArgKind>)
    requires options.Some? ==> |options.value| > 0
    ensures (mode, short) == ShortConfig(options)
  {
    mode, short := CollectNonOptions, map[];
    if options.None? {
      return;
    }
    var o := options.value;
    var i := 0;
    if o[0] == '-' {
      mode := HandleNonOption;
      i := i + 1;
    } else if o[0] == '+' {
      mode := StopAtFirstNonOption;
      i := i + 1;
    }
    while i < |o|
      invariant i <= |o|
      invariant ShortTable(o, i, short) == ShortConfig(options).1
      decreases |o| - i
    {
      var c := o[i];
      if c !in short {
        if i + 2 < |o| && o[i + 1] == ':' && o[i + 2] == ':' {
          short := short[c := OptionalArgument];
          i := i + 2;
        } else if i + 1 < |o| && o[i + 1] == ':' {
          short := short[c := MandatoryArgument];
          i := i + 1;
        } else {
          short := short[c := NoArgument];
        }
      }
      i := i + 1;
    }
  }

  method ParseLongOptions(longOptions: Option<seq<string>>) returns (long: map<string, ArgKind>)
    ensures long == LongConfig(longOptions)
  {
    long := map[];
    if longOptions.None? {
      return;
    }
    var l := longOptions.value;
    for i := 0 to |l|
      invariant LongTable(l, i, long) == LongConfig(longOptions)
    {
      var option := l[i];
      if EndsWith(option, "::") {
        var key := option[..|option| - 2];
        if key !in long {
          long := long[key := OptionalArgument];
        }
      } else if EndsWith(option, ":") {
        var key := option[..|option| - 1];
        if key !in long {
          long := long[key := MandatoryArgument];
        }
      } else {
        if option !in long {
          long := long[option := NoArgument];
        }
      }
    }
  }

  /** One short-option group `args[i]`, consumed character by character. */
  method ParseToken(args: seq<string>, i: nat, short: map<char, ArgKind>, opts: seq<Pair>)
    returns (r: Outcome<(seq<Pair>, nat)>)
    requires i < |args| && |args[i]| > 0
    ensures r == ShortToken(args, i, args[i][1..], short, opts)
  {
    var token := args[i][1..];
    var list := opts;
    while |token| > 0
      invariant ShortToken(args, i, token, short, list) == ShortToken(args, i, args[i][1..], short, opts)
      decreases |token|
    {
      var c := token[0];
      if c !in short {
        return GetoptException("Unknow option -" + [c]);
      }
      var opt := short[c];
      if opt == MandatoryArgument {
        if |token| > 1 {
          return Ok((list + [("-" + [c], Some(token[1..]))], i));
        } else if i + 1 < |args| {
          return Ok((list + [("-" + [c], Some(args[i + 1]))], i + 1));
        } else {
          return GetoptException("Option -" + [c] + " takes an argument");
        }
      } else if opt == OptionalArgument {
        if |token| > 1 {
          return Ok((list + [("-" + [c], Some(token[1..]))], i));
        } else {
          return Ok((list + [("-" + [c], None)], i));
        }
      } else {
        list := list + [("-" + [c], None)];
        token := token[1..];
      }
    }
    return Ok((list, i));
  }

  /** One long option `args[i]`, looked up in the table. */
  method ParseLong(args: seq<string>, i: nat, long: map<string, ArgKind>) returns (r: Outcome<(Pair, nat)>)
    requires i < |args| && "--" <= args[i] && args[i] != "--"
    ensures r == LongArg(args, i, long)
  {
    var arg := args[i];
    var index := IndexOf(arg, '=');
    if index.Some? {
      var key := GetKey(long, arg[2..index.value]);
      if key.GetoptException? {
        return GetoptException(key.message);
      }
      var value := arg[index.value + 1..];
      if long[key.value] != NoArgument {
        return Ok((("--" + key.value, Some(value)), i));
      } else {
        return GetoptException("Option --" + key.value + " takes no argument");
      }
    } else {
      var key := GetKey(long, arg[2..]);
      if key.GetoptException? {
        return GetoptException(key.message);
      }
      if long[key.value] == MandatoryArgument {
        if i + 1 < |args| {
          return Ok((("--" + key.value, Some(args[i + 1])), i + 1));
        } else {
          return GetoptException("Option --" + key.value + " takes an argument");
        }
      } else {
        return Ok((("--" + key.value, None), i));
      }
    }
  }

  /**
   * Parses the command line: the options found, in order, and the
   * arguments left over.
   */
  method Getopt(args: seq<string>, options: Option<string>, longOptions: Option<seq<string>>)
    returns (r: Outcome<Parsed>)
    requires options.Some? ==> |options.value| > 0
    ensures r == GetoptSpec(args, options, longOptions)
  {
    var mode, short := ParseShortOptions(options);
    var long := ParseLongOptions(longOptions);
    ghost var cfg := Config(mode, short, long);
    ghost var spec := GetoptSpec(args, options, longOptions);
    assert GetoptFrom(args, 0, cfg, [], []) == spec;
    var optionsList: seq<Pair> := [];
    var remaining: seq<string> := [];
    var i := 0;
    while i < |args|
      invariant i <= |args|
      invariant GetoptFrom(args, i, cfg, optionsList, remaining) == spec
      decreases |args| - i
    {
      var t := GetoptTurn(args, i, mode, short, long, optionsList, remaining, cfg);
      if t.Done? {
        return t.result;
      }
      i, optionsList, remaining := t.i, t.opts, t.rem;
    }
    return Ok(Parsed(optionsList, remaining));
  }

  /** Where getopt's loop goes after one argument: on from a later one, or to its result. */
  datatype Turn = Next(i: nat, opts: seq<Pair>, rem: seq<string>) | Done(result: Outcome<Parsed>)

  /**
   * One turn of getopt's loop on `args[i]`: "--" and, in '+' mode, a
   * non-option end the scan with the rest of the arguments remaining; a
   * long option or a token of short options adds its pairs; a non-option
   * is an option named "" in '-' mode and is kept aside otherwise.
   */
  method GetoptTurn(args: seq<string>, i: nat, mode: Mode, short: map<char, ArgKind>, long: map<string, ArgKind>,
                    opts: seq<Pair>, rem: seq<string>, ghost cfg: Config) returns (t: Turn)
    requires i < |args| && cfg == Config(mode, short, long)
    ensures t.Next? ==> i < t.i <= |args| && GetoptFrom(args, t.i, cfg, t.opts, t.rem) == GetoptFrom(args, i, cfg, opts, rem)
    ensures t.Done? ==> t.result == GetoptFrom(args, i, cfg, opts, rem)
  {
    var arg := args[i];
    if arg == "--" {
      var rest := AppendRest(rem, args, i + 1);
      return Done(Ok(Parsed(opts, rest)));
    } else if "--" <= arg {
      var p := ParseLong(args, i, long);
      if p.GetoptException? {
        return Done(GetoptException(p.message));
      }
      return Next(p.value.1 + 1, opts + [p.value.0], rem);
    } else if "-" <= arg {
      var tk := ParseToken(args, i, short, opts);
      if tk.GetoptException? {
        return Done(GetoptException(tk.message));
      }
      return Next(tk.value.1 + 1, tk.value.0, rem);
    } else if mode == StopAtFirstNonOption {
      var rest := AppendRest(rem, args, i);
      return Done(Ok(Parsed(opts, rest)));
    } else if mode == HandleNonOption {
      return Next(i + 1, opts + [("", Some(arg))], rem);
    } else {
      return Next(i + 1, opts, rem + [arg]);
    }
  }

  /** The arguments after the scan stopped go to the remaining list, in order. */
  method AppendRest(remaining: seq<string>, args: seq<string>, i: nat) returns (rem: seq<string>)
    requires i <= |args|
    ensures rem == remaining + args[i..]
  {
    rem := remaining;
    var j := i;
    while j < |args|
      invariant i <= j <= |args|
      invariant rem + args[j..] == remaining + args[i..]
      decreases |args| - j
    {
      assert args[j..] == [args[j]] + args[j + 1..];
      rem := rem + [args[j]];
      j := j + 1;
    }
  }

  // ---------------------------------------------------------------------
  // Properties
  // ---------------------------------------------------------------------

  /** A short option, once declared, keeps its kind. */
  lemma {:induction false} ShortTableKeeps(o: string, i: nat, m: map<char, ArgKind>, c: char)
    requires i <= |o| && c in m
    ensures c in ShortTable(o, i, m) && ShortTable(o, i, m)[c] == m[c]
    decreases |o| - i
  {
    if i < |o| {
      if o[i] in m {
        ShortTableKeeps(o, i + 1, m, c);
      } else if i + 2 < |o| && o[i + 1] == ':' && o[i + 2] == ':' {
        ShortTableKeeps(o, i + 3, m[o[i] := OptionalArgument], c);
      } else if i + 1 < |o| && o[i + 1] == ':' {
        ShortTableKeeps(o, i + 2, m[o[i] := MandatoryArgument], c);
      } else {
        ShortTableKeeps(o, i + 1, m[o[i] := NoArgument], c);
      }
    }
  }

  /**
   * The first declaration of a short option decides its kind: "c::" an
   * optional argument, "c:" a mandatory one, a bare "c" none.
   */
  lemma ShortDeclaration(o: string, i: nat, m: map<char, ArgKind>)
    requires i < |o| && o[i] !in m
    ensures o[i] in ShortTable(o, i, m)
    ensures i + 2 < |o| && o[i + 1] == ':' && o[i + 2] == ':' ==>
              ShortTable(o, i, m)[o[i]] == OptionalArgument
    ensures i + 1 < |o| && o[i + 1] == ':' && !(i + 2 < |o| && o[i + 2] == ':') ==>
              ShortTable(o, i, m)[o[i]] == MandatoryArgument
    ensures !(i + 1 < |o| && o[i + 1] == ':') ==> ShortTable(o, i, m)[o[i]] == NoArgument
  {
    if i + 2 < |o| && o[i + 1] == ':' && o[i + 2] == ':' {
      ShortTableKeeps(o, i + 3, m[o[i] := OptionalArgument], o[i]);
    } else if i + 1 < |o| && o[i + 1] == ':' {
      ShortTableKeeps(o, i + 2, m[o[i] := MandatoryArgument], o[i]);
    } else {
      ShortTableKeeps(o, i + 1, m[o[i] := NoArgument], o[i]);
    }
  }

  /** Every short option comes from a character of the declaration list. */
  lemma {:induction false} ShortTableKeys(o: string, i: nat, m: map<char, ArgKind>)
    requires i <= |o|
    ensures forall c :: c in ShortTable(o, i, m) ==> c in m || c in o[i..]
    decreases |o| - i
  {
    if i < |o| {
      var next := if o[i] in m then i + 1
        else if i + 2 < |o| && o[i + 1] == ':' && o[i + 2] == ':' then i + 3
        else if i + 1 < |o| && o[i + 1] == ':' then i + 2
        else i + 1;
      var m' := if o[i] in m then m
        else if i + 2 < |o| && o[i + 1] == ':' && o[i + 2] == ':' then m[o[i] := OptionalArgument]
        else if i + 1 < |o| && o[i + 1] == ':' then m[o[i] := MandatoryArgument]
        else m[o[i] := NoArgument];
      assert ShortTable(o, i, m) == ShortTable(o, next, m');
      ShortTableKeys(o, next, m');
      forall c | c in o[next..] ensures c in o[i..] {
        var k :| 0 <= k < |o[next..]| && o[next..][k] == c;
        assert o[i..][k + next - i] == c;
      }
    }
  }

  /** A long option, once declared, keeps its kind. */
  lemma {:induction false} LongTableKeeps(l: seq<string>, i: nat, m: map<string, ArgKind>, k: string)
    requires i <= |l| && k in m
    ensures k in LongTable(l, i, m) && LongTable(l, i, m)[k] == m[k]
    decreases |l| - i
  {
    if i < |l| {
      var e := LongEntry(l[i]);
      LongTableKeeps(l, i + 1, if e.0 in m then m else m[e.0 := e.1], k);
    }
  }

  /** The first declaration of a long name decides its kind. */
  lemma LongDeclaration(l: seq<string>, i: nat, m: map<string, ArgKind>)
    requires i < |l| && LongEntry(l[i]).0 !in m
    ensures LongEntry(l[i]).0 in LongTable(l, i, m)
    ensures LongTable(l, i, m)[LongEntry(l[i]).0] == LongEntry(l[i]).1
  {
    var e := LongEntry(l[i]);
    LongTableKeeps(l, i + 1, m[e.0 := e.1], e.0);
  }

  /** "name::" declares an optional argument, "name:" a mandatory one. */
  lemma LongEntryKinds(name: string)
    ensures LongEntry(name + "::") == (name, OptionalArgument)
    ensures ':' !in name ==> LongEntry(name + ":") == (name, MandatoryArgument)
    ensures ':' !in name ==> LongEntry(name) == (name, NoArgument)
  {
    assert (name + "::")[..|name|] == name;
    assert (name + ":")[..|name|] == name;
    if ':' !in name && |name| > 0 {
      assert name[|name| - 1] in name;
    }
  }

  /** A unique abbreviation stands for the option it abbreviates. */
  lemma GetKeyAbbreviation(m: map<string, ArgKind>, key: string, k: string)
    requires key !in m && k in m && key <= k
    requires forall k' :: k' in m && key <= k' ==> k' == k
    ensures GetKeySpec(m, key) == Ok(k)
  {
    assert Prefixed(m, key) == {k};
  }

  /** An abbreviation of two options is refused as ambiguous. */
  lemma GetKeyAmbiguous(m: map<string, ArgKind>, key: string, k1: string, k2: string)
    requires key !in m && k1 in m && k2 in m && k1 != k2 && key <= k1 && key <= k2
    ensures GetKeySpec(m, key) == GetoptException("Option --" + key + " is ambiguous")
  {
    SubsetCard({k1, k2}, Prefixed(m, key));
  }

  /** A name no option starts with is refused as unknown. */
  lemma GetKeyUnknown(m: map<string, ArgKind>, key: string)
    requires forall k :: k in m ==> !(key <= k)
    ensures GetKeySpec(m, key) == GetoptException("Unknow option --" + key)
  {
    assert key <= key;
    assert Prefixed(m, key) == {};
  }

  /** The argument "--name=value" splits at the first '='. */
  lemma IndexOfAssignment(key: string, value: string)
    requires '=' !in key
    ensures IndexOf("--" + key + "=" + value, '=') == Some(2 + |key|)
    ensures ("--" + key + "=" + value)[2..2 + |key|] == key
    ensures ("--" + key + "=" + value)[2 + |key| + 1..] == value
  {
    var arg := "--" + key + "=" + value;
    assert arg[2 + |key|] == '=';
    assert arg[..2 + |key|] == "--" + key;
    assert '=' !in arg[..2 + |key|];
  }

  /** "--name=value" gives the value to an option that takes one. */
  lemma LongAssignment(args: seq<string>, i: nat, long: map<string, ArgKind>, key: string, value: string)
    requires i < |args| && args[i] == "--" + key + "=" + value && '=' !in key
    requires key in long && long[key] != NoArgument
    ensures LongArg(args, i, long) == Ok((("--" + key, Some(value)), i))
  {
    IndexOfAssignment(key, value);
  }

  /** "--name=value" is refused for an option that takes no argument. */
  lemma LongAssignmentRefused(args: seq<string>, i: nat, cfg: Config, opts: seq<Pair>, rem: seq<string>, key: string, value: string)
    requires i < |args| && args[i] == "--" + key + "=" + value && '=' !in key
    requires key in cfg.long && cfg.long[key] == NoArgument
    ensures GetoptFrom(args, i, cfg, opts, rem) ==
              GetoptException("Option --" + key + " takes no argument")
  {
    IndexOfAssignment(key, value);
  }

  /** An option with a mandatory argument cannot be the last argument. */
  lemma LongMandatoryAtEnd(args: seq<string>, cfg: Config, opts: seq<Pair>, rem: seq<string>, key: string)
    requires |args| > 0 && args[|args| - 1] == "--" + key && key != "" && '=' !in key
    requires key in cfg.long && cfg.long[key] == MandatoryArgument
    ensures GetoptFrom(args, |args| - 1, cfg, opts, rem) ==
              GetoptException("Option --" + key + " takes an argument")
  {
    var arg := args[|args| - 1];
    assert arg[2..] == key;
    forall k | 0 <= k < |arg| ensures arg[k] != '=' {
      if k >= 2 {
        assert arg[k] == key[k - 2];
      }
    }
  }

  /** The short options a token of flags stands for, each without a value. */
  function Flags(token: string): (r: seq<Pair>)
    ensures |r| == |token|
  {
    if |token| == 0 then [] else [("-" + [token[0]], None)] + Flags(token[1..])
  }

  /** A group of flags "-abc" is the options -a, -b and -c, in order. */
  lemma {:induction false} GroupedFlags(args: seq<string>, i: nat, token: string, short: map<char, ArgKind>, opts: seq<Pair>)
    requires i < |args|
    requires forall k :: 0 <= k < |token| ==> token[k] in short && short[token[k]] == NoArgument
    ensures ShortToken(args, i, token, short, opts) == Ok((opts + Flags(token), i))
    decreases |token|
  {
    if |token| > 0 {
      var c := token[0];
      assert ShortToken(args, i, token, short, opts) ==
               ShortToken(args, i, token[1..], short, opts + [("-" + [c], None)]);
      GroupedFlags(args, i, token[1..], short, opts + [("-" + [c], None)]);
      assert opts + [("-" + [c], None)] + Flags(token[1..]) == opts + Flags(token);
    } else {
      assert opts + Flags(token) == opts;
    }
  }

  /** "--" ends option processing: everything after it is left over. */
  lemma DoubleDashEndsOptions(args: seq<string>, i: nat, cfg: Config, opts: seq<Pair>, rem: seq<string>)
    requires i < |args| && args[i] == "--"
    ensures GetoptFrom(args, i, cfg, opts, rem) == Ok(Parsed(opts, rem + args[i + 1..]))
  {
  }

  /** What the non-option arguments become in "-" mode: values of option "". */
  function NonOptionPairs(s: seq<string>): (r: seq<Pair>)
    ensures |r| == |s|
    ensures forall k :: 0 <= k < |s| ==> r[k] == ("", Some(s[k]))
  {
    if |s| == 0 then [] else [("", Some(s[0]))] + NonOptionPairs(s[1..])
  }

  /**
   * Arguments that are not options are left over in order, or reported
   * as values of option "" in "-" mode.
   */
  lemma {:induction false} PlainArguments(args: seq<string>, i: nat, cfg: Config, opts: seq<Pair>, rem: seq<string>)
    requires i <= |args|
    requires forall k :: i <= k < |args| ==> !("-" <= args[k])
    ensures cfg.mode == HandleNonOption ==>
              GetoptFrom(args, i, cfg, opts, rem) == Ok(Parsed(opts + NonOptionPairs(args[i..]), rem))
    ensures cfg.mode != HandleNonOption ==>
              GetoptFrom(args, i, cfg, opts, rem) == Ok(Parsed(opts, rem + args[i..]))
    decreases |args| - i
  {
    if i == |args| {
      assert opts + NonOptionPairs(args[i..]) == opts;
      assert rem + args[i..] == rem;
    } else {
      PlainStep(args, i, cfg, opts, rem);
      assert args[i..] == [args[i]] + args[i + 1..];
      if cfg.mode == HandleNonOption {
        PlainArguments(args, i + 1, cfg, opts + [("", Some(args[i]))], rem);
        assert NonOptionPairs(args[i..]) == [("", Some(args[i]))] + NonOptionPairs(args[i + 1..]);
        assert opts + [("", Some(args[i]))] + NonOptionPairs(args[i + 1..]) ==
                 opts + NonOptionPairs(args[i..]);
      } else if cfg.mode == CollectNonOptions {
        PlainArguments(args, i + 1, cfg, opts, rem + [args[i]]);
        assert rem + [args[i]] + args[i + 1..] == rem + args[i..];
      }
    }
  }

  /** One step of the scan over an argument that is not an option. */
  lemma PlainStep(args: seq<string>, i: nat, cfg: Config, opts: seq<Pair>, rem: seq<string>)
    requires i < |args| && !("-" <= args[i])
    ensures cfg.mode == StopAtFirstNonOption ==>
              GetoptFrom(args, i, cfg, opts, rem) == Ok(Parsed(opts, rem + args[i..]))
    ensures cfg.mode == HandleNonOption ==>
              GetoptFrom(args, i, cfg, opts, rem) == GetoptFrom(args, i + 1, cfg, opts + [("", Some(args[i]))], rem)
    ensures cfg.mode == CollectNonOptions ==>
              GetoptFrom(args, i, cfg, opts, rem) == GetoptFrom(args, i + 1, cfg, opts, rem + [args[i]])
  {
    assert args[i] != "--" && !("--" <= args[i]) by {
      assert !("-" <= args[i]);
    }
  }

  /** The names the parser reports: "" in "-" mode, "-c" or "--name" for a declared option. */
  predicate KnownName(cfg: Config, n: string) {
    (n == "" && cfg.mode == HandleNonOption)
    || (|n| == 2 && n[0] == '-' && n[1] in cfg.short)
    || (|n| >= 2 && n[..2] == "--" && n[2..] in cfg.long)
  }

  predicate AllKnown(cfg: Config, opts: seq<Pair>) {
    forall k :: 0 <= k < |opts| ==> KnownName(cfg, opts[k].0)
  }

  lemma {:induction false} ShortTokenKnown(args: seq<string>, i: nat, token: string, cfg: Config, opts: seq<Pair>)
    requires i < |args| && AllKnown(cfg, opts)
    ensures ShortToken(args, i, token, cfg.short, opts).Ok? ==>
              AllKnown(cfg, ShortToken(args, i, token, cfg.short, opts).value.0)
    decreases |token|
  {
    if |token| > 0 && token[0] in cfg.short {
      var c := token[0];
      assert KnownName(cfg, "-" + [c]);
      if cfg.short[c] == NoArgument {
        ShortTokenKnown(args, i, token[1..], cfg, opts + [("-" + [c], None)]);
      }
    }
  }

  /** Every option in a successful parse is one the lists declared. */
  lemma {:induction false} GetoptNamesKnown(args: seq<string>, i: nat, cfg: Config, opts: seq<Pair>, rem: seq<string>)
    requires i <= |args| && AllKnown(cfg, opts)
    ensures GetoptFrom(args, i, cfg, opts, rem).Ok? ==>
              AllKnown(cfg, GetoptFrom(args, i, cfg, opts, rem).value.options)
    decreases |args| - i
  {
    if i < |args| && args[i] != "--" {
      if "--" <= args[i] {
        var r := LongArg(args, i, cfg.long);
        if r.Ok? {
          var name := r.value.0.0;
          assert name[..2] == "--" && name[2..] in cfg.long;
          GetoptNamesKnown(args, r.value.1 + 1, cfg, opts + [r.value.0], rem);
        }
      } else if "-" <= args[i] {
        ShortTokenKnown(args, i, args[i][1..], cfg, opts);
        var r := ShortToken(args, i, args[i][1..], cfg.short, opts);
        if r.Ok? {
          GetoptNamesKnown(args, r.value.1 + 1, cfg, r.value.0, rem);
        }
      } else if cfg.mode == HandleNonOption {
        GetoptNamesKnown(args, i + 1, cfg, opts + [("", Some(args[i]))], rem);
      } else if cfg.mode == CollectNonOptions {
        GetoptNamesKnown(args, i + 1, cfg, opts, rem + [args[i]]);
      }
    }
  }
}
