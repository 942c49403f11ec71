/**
 * The option store of config_parser.c: named sections holding named options,
 * each option with its raw value and the line it was read from; values may
 * refer to other options of their section as ${name}, expanded at lookup.
 *
 * The tsearch trees of sections and of each section's options become maps
 * keyed by name (the strcmp order of the trees is never observable). Strings
 * are the characters of the C strings, without the terminating '\0'.
 */
module ConfigParser {
  import opened Wrappers

  /** parser_error_string: what a value that refers back to itself expands to. */
  const ErrorString: string := "[RECURSION ERROR]"

  /** item_value_t: the raw value and its line number. */
  datatype Item = Item(value: string, nline: int)

  /** item_section_t: the option tree and n_values. */
  datatype Section = Section(values: map<string, Item>, nValues: int)

  /** The sections tree. */
  type Store = map<string, Section>

  /** What a getter leaves behind: its return value (-1 undefined, 0 invalid, 1 success) and the value it stored on success. */
  datatype Fetched = Fetched(ret: int, value: int)

  /** Every section's n_values counts its options. */
  predicate Counted(data: Store) {
    forall s :: s in data ==> data[s].nValues == |data[s].values|
  }

  // ---------------------------------------------------------------------
  // Lookups

  /** The raw option [section] option, if both exist. */
  function Lookup(data: Store, section: string, option: string): Option<Item> {
    if section in data && option in data[section].values then Some(data[section].values[option]) else None
  }

  /** parser_has_section. */
  function HasSection(data: Store, section: string): (b: bool)
    ensures b <==> section in data
    ensures !b ==> forall o :: Lookup(data, section, o) == None
  {
    section in data
  }

  /** parser_section_count: -1 for a missing section, otherwise its number of options. */
  function SectionCount(data: Store, section: string): (n: int)
    ensures section !in data ==> n == -1
    ensures section in data && Counted(data) ==> n == |data[section].values| >= 0
  {
    if section in data then data[section].nValues else -1
  }

  /** parser_has_option: the section exists and holds the option. */
  function HasOption(data: Store, section: string, option: string): (b: bool)
    ensures b <==> Lookup(data, section, option).Some?
    ensures b ==> HasSection(data, section)
  {
    if section !in data then false else option in data[section].values
  }

  // ---------------------------------------------------------------------
  // Updates, as functions of the trees

  /**
   * parser_set: the section is created if missing, the option is created or
   * overwritten; n_values grows only for a new option.
   */
  function SetIn(data: Store, section: string, option: string, value: string, nline: int): (d: Store)
    ensures Lookup(d, section, option) == Some(Item(value, nline))
    ensures forall s, o :: (s != section || o != option) ==> Lookup(d, s, o) == Lookup(data, s, o)
    ensures SectionCount(d, section) ==
      (if section in data then SectionCount(data, section) else 0) + (if HasOption(data, section, option) then 0 else 1)
    ensures Counted(data) ==> Counted(d)
  {
    var sec := if section in data then data[section] else Section(map[], 0);
    var n := if option in sec.values then sec.nValues else sec.nValues + 1;
    data[section := Section(sec.values[option := Item(value, nline)], n)]
  }

  /** parser_set leaves the sections it found and the one it names. */
  lemma SetInSections(data: Store, section: string, option: string, value: string, nline: int)
    ensures SetIn(data, section, option, value, nline).Keys == data.Keys + {section}
  {
  }

  /** parser_add_section: an empty section, or nothing when it exists. */
  function AddSectionIn(data: Store, section: string): (d: Store)
    ensures d.Keys == data.Keys + {section}
    ensures forall s, o :: Lookup(d, s, o) == Lookup(data, s, o)
    ensures section in data ==> d == data
    ensures SectionCount(d, section) == if section in data then SectionCount(data, section) else 0
    ensures Counted(data) ==> Counted(d)
  {
    if section in data then data else data[section := Section(map[], 0)]
  }

  /**
   * parser_remove_option with the search item handed to tdelete:
   * n_values drops by one only when the option existed.
   */
  function RemoveOptionIn(data: Store, section: string, option: string): (d: Store)
    ensures Lookup(d, section, option) == None
    ensures forall s, o :: (s != section || o != option) ==> Lookup(d, s, o) == Lookup(data, s, o)
    ensures d.Keys == data.Keys
    ensures SectionCount(d, section) == SectionCount(data, section) - (if HasOption(data, section, option) then 1 else 0)
    ensures Counted(data) ==> Counted(d)
  {
    if section in data && option in data[section].values then
      var sec := data[section];
      data[section := Section(sec.values - {option}, sec.nValues - 1)]
    else data
  }

  /** parser_remove_section with the search item handed to tdelete: the section and all its options go. */
  function RemoveSectionIn(data: Store, section: string): (d: Store)
    ensures d.Keys == data.Keys - {section}
    ensures forall o :: Lookup(d, section, o) == None
    ensures forall s, o :: s != section ==> Lookup(d, s, o) == Lookup(data, s, o)
    ensures Counted(data) ==> Counted(d)
  {
    data - {section}
  }

  /**
   * parser_remove_option as written: once tfind has found the option, tdelete
   * is handed the option's name where the tree's comparison expects an item,
   * so strcmp reads the name's first bytes as a pointer. That is undefined
   * behaviour, shown as None. A missing section or option returns before
   * tdelete, and the store is then what the corrected removal leaves.
   */
  function RemoveOptionAsWritten(data: Store, section: string, option: string): (r: Option<Store>)
    ensures r.None? <==> HasOption(data, section, option)
    ensures r.Some? ==> r.value == RemoveOptionIn(data, section, option)
  {
    if section in data && option in data[section].values then None else Some(data)
  }

  /** parser_remove_section as written: tdelete is handed the bare section name (undefined behaviour). */
  function RemoveSectionAsWritten(data: Store, section: string): (r: Option<Store>)
    ensures r.None? <==> HasSection(data, section)
    ensures r.Some? ==> r.value == RemoveSectionIn(data, section)
  {
    if section in data then None else Some(data)
  }

  /**
   * An option just set cannot be removed as written, though the corrected
   * removal (tdelete given the search item) removes it.
   */
  lemma RemoveOptionAfterSetAsWritten(data: Store, section: string, option: string, value: string, nline: int)
    ensures var d := SetIn(data, section, option, value, nline);
            RemoveOptionAsWritten(d, section, option).None?
            && Lookup(RemoveOptionIn(d, section, option), section, option) == None
            && HasOption(d, section, option)
  {
  }

  /** A section just set cannot be removed as written; the corrected removal drops it. */
  lemma RemoveSectionAfterSetAsWritten(data: Store, section: string, option: string, value: string, nline: int)
    ensures var d := SetIn(data, section, option, value, nline);
            RemoveSectionAsWritten(d, section).None?
            && section !in RemoveSectionIn(d, section)
            && section in d
  {
    SetInSections(data, section, option, value, nline);
  }

  // ---------------------------------------------------------------------
  // Value expansion (parser_substitution / parser_get_expanded)

  /** strchr(v + from, c): the first index at or after from holding c. */
  function Find(v: string, from: nat, c: char): (r: Option<nat>)
    ensures r.Some? ==> from <= r.value < |v| && v[r.value] == c
    ensures r.Some? ==> forall k :: from <= k < r.value ==> v[k] != c
    ensures r.None? ==> forall k :: from <= k < |v| ==> v[k] != c
    decreases |v| - from
  {
    if from >= |v| then None else if v[from] == c then Some(from) else Find(v, from + 1, c)
  }

  /** A reference "${name}" starts at i; the result is the index of its '}'. */
  function RefAt(v: string, i: nat): (r: Option<nat>)
    ensures r.Some? ==> i + 2 <= r.value < |v| && v[i] == '$' && v[i + 1] == '{' && v[r.value] == '}'
    ensures r.Some? ==> forall k :: i + 2 <= k < r.value ==> v[k] != '}'
  {
    if i + 1 < |v| && v[i] == '$' && v[i + 1] == '{' then Find(v, i + 2, '}') else None
  }

  /**
   * The expansion of an option of a section whose options are vals, while
   * the options in visiting are being expanded (their `expanding` flag is
   * set): one of those expands to the error string.
   */
  function Expanded(vals: map<string, Item>, option: string, visiting: set<string>): string
    requires option in vals
    decreases vals.Keys - visiting, 0, 0
  {
    if option in visiting then ErrorString
    else Substituted(vals, vals[option].value, 0, false, visiting + {option})
  }

  /**
   * What the second loop of parser_substitution writes from position i of
   * v on (without the final '\0'): "\$" gives "$", another escaped character
   * keeps its backslash, a defined ${name} gives the expansion of name, an
   * undefined one is kept as written.
   */
  function Substituted(vals: map<string, Item>, v: string, i: nat, escaped: bool, visiting: set<string>): string
    requires i <= |v|
    decreases vals.Keys - visiting, 1, |v| - i
  {
    if i == |v| then (if escaped then "\\" else "")
    else if escaped then (if v[i] != '$' then ['\\', v[i]] else [v[i]]) + Substituted(vals, v, i + 1, false, visiting)
    else if v[i] == '\\' then Substituted(vals, v, i + 1, true, visiting)
    else match RefAt(v, i)
      case Some(e) =>
        var name := v[i + 2..e];
        (if name in vals then Expanded(vals, name, visiting) else v[i..e + 1]) + Substituted(vals, v, e + 1, false, visiting)
      case None => [v[i]] + Substituted(vals, v, i + 1, false, visiting)
  }

  /** The length the first loop of parser_substitution counts from position i: the text minus references, "\$" as one, plus the '\0'. */
  function PlainLength(v: string, i: nat, escaped: bool): (n: nat)
    requires i <= |v|
    ensures n >= 1
    decreases |v| - i
  {
    if i == |v| then (if escaped then 2 else 1)
    else if escaped then (if v[i] != '$' then 2 else 1) + PlainLength(v, i + 1, false)
    else if v[i] == '\\' then PlainLength(v, i + 1, true)
    else match RefAt(v, i)
      case Some(e) => PlainLength(v, e + 1, false)
      case None => 1 + PlainLength(v, i + 1, false)
  }

  /**
   * parser_substitution: the first loop computes the length without the
   * references, the second writes the expansion and adds the length of each
   * inserted text; the final length equals the number of bytes written.
   */
  method Substitution(vals: map<string, Item>, v: string, visiting: set<string>) returns (r: string, len: nat)
    ensures r == Substituted(vals, v, 0, false, visiting)
    ensures len == |r| + 1
  {
    // compute the length of the value minus the expanded parts
    var i := 0;
    var escaped := false;
    len := 0;
    while i < |v|
      invariant i <= |v|
      invariant len + PlainLength(v, i, escaped) == PlainLength(v, 0, false)
      decreases |v| - i
    {
      if !escaped {
        if v[i] == '\\' {
          escaped := true;
        } else if RefAt(v, i).Some? {
          i := RefAt(v, i).value;
        } else {
          len := len + 1;
        }
      } else {
        if v[i] != '$' {
          len := len + 1;
        }
        len := len + 1;
        escaped := false;
      }
      i := i + 1;
    }
    len := len + if escaped then 2 else 1;

    // write the expanded value
    i := 0;
    escaped := false;
    r := [];
    while i < |v|
      invariant i <= |v|
      invariant r + Substituted(vals, v, i, escaped, visiting) == Substituted(vals, v, 0, false, visiting)
      invariant len == |r| + PlainLength(v, i, escaped)
      decreases |v| - i
    {
      ghost var r0, i0, escaped0 := r, i, escaped;
      if !escaped {
        if v[i] == '\\' {
          escaped := true;
        } else if RefAt(v, i).Some? {
          var e := RefAt(v, i).value;
          var name := v[i + 2..e];
          if name in vals {
            var x := Expanded(vals, name, visiting);
            len := len + |x|;
            r := r + x;
          } else {
            len := len + (e - i + 1);
            r := r + v[i..e + 1];
          }
          i := e;
        } else {
          r := r + [v[i]];
        }
      } else {
        if v[i] != '$' {
          r := r + ['\\'];
        }
        r := r + [v[i]];
        escaped := false;
      }
      i := i + 1;
      SubstitutedStep(vals, v, i0, escaped0, visiting, r0, r, i, escaped);
    }
    if escaped {
      r := r + ['\\'];
    }
  }

  /**
   * One turn of the second loop of parser_substitution, from (r0, i0,
   * escaped0) to (r, i, escaped), writes what Substituted produces between
   * the two positions, and adds to the length what the first loop left out.
   */
  lemma SubstitutedStep(vals: map<string, Item>, v: string, i0: nat, escaped0: bool, visiting: set<string>,
                        r0: string, r: string, i: nat, escaped: bool)
    requires i0 < |v| && i <= |v|
    requires escaped0 ==> !escaped && i == i0 + 1 && r == r0 + (if v[i0] != '$' then ['\\', v[i0]] else [v[i0]])
    requires !escaped0 && v[i0] == '\\' ==> escaped && i == i0 + 1 && r == r0
    requires !escaped0 && v[i0] != '\\' && RefAt(v, i0).Some? ==>
      var e := RefAt(v, i0).value; var name := v[i0 + 2..e];
      !escaped && i == e + 1 && r == r0 + (if name in vals then Expanded(vals, name, visiting) else v[i0..e + 1])
    requires !escaped0 && v[i0] != '\\' && RefAt(v, i0).None? ==> !escaped && i == i0 + 1 && r == r0 + [v[i0]]
    ensures r + Substituted(vals, v, i, escaped, visiting) == r0 + Substituted(vals, v, i0, escaped0, visiting)
    ensures |r| + PlainLength(v, i, escaped) == |r0| + PlainLength(v, i0, escaped0)
      + (if !escaped0 && v[i0] != '\\' && RefAt(v, i0).Some? then |r| - |r0| else 0)
  {
    var x := r[|r0|..];
    assert r == r0 + x;
    SubstitutedHead(vals, v, i0, escaped0, visiting, x, i, escaped);
    PlainLengthHead(v, i0, escaped0, |x|, i, escaped);
  }

  /** Substituted from i0 begins with the text x one turn writes, then goes on from i. */
  lemma SubstitutedHead(vals: map<string, Item>, v: string, i0: nat, escaped0: bool, visiting: set<string>,
                        x: string, i: nat, escaped: bool)
    requires i0 < |v| && i <= |v|
    requires escaped0 ==> !escaped && i == i0 + 1 && x == (if v[i0] != '$' then ['\\', v[i0]] else [v[i0]])
    requires !escaped0 && v[i0] == '\\' ==> escaped && i == i0 + 1 && x == []
    requires !escaped0 && v[i0] != '\\' && RefAt(v, i0).Some? ==>
      var e := RefAt(v, i0).value; var name := v[i0 + 2..e];
      !escaped && i == e + 1 && x == (if name in vals then Expanded(vals, name, visiting) else v[i0..e + 1])
    requires !escaped0 && v[i0] != '\\' && RefAt(v, i0).None? ==> !escaped && i == i0 + 1 && x == [v[i0]]
    ensures Substituted(vals, v, i0, escaped0, visiting) == x + Substituted(vals, v, i, escaped, visiting)
  {
    if !escaped0 && v[i0] == '\\' {
      assert x + Substituted(vals, v, i, escaped, visiting) == Substituted(vals, v, i, escaped, visiting);
    }
  }

  /** PlainLength from i0 is what one turn counts plus PlainLength from i. */
  lemma PlainLengthHead(v: string, i0: nat, escaped0: bool, written: nat, i: nat, escaped: bool)
    requires i0 < |v| && i <= |v|
    requires escaped0 ==> !escaped && i == i0 + 1 && written == (if v[i0] != '$' then 2 else 1)
    requires !escaped0 && v[i0] == '\\' ==> escaped && i == i0 + 1 && written == 0
    requires !escaped0 && v[i0] != '\\' && RefAt(v, i0).Some? ==> !escaped && i == RefAt(v, i0).value + 1
    requires !escaped0 && v[i0] != '\\' && RefAt(v, i0).None? ==> !escaped && i == i0 + 1 && written == 1
    ensures written + PlainLength(v, i, escaped) == PlainLength(v, i0, escaped0)
      + (if !escaped0 && v[i0] != '\\' && RefAt(v, i0).Some? then written else 0)
  {
  }

  /** parser_get: NULL for a missing section or option; the raw value, or its expansion when expansions are on. */
  function Get(data: Store, expand: bool, section: string, option: string): (r: Option<string>)
    ensures r.None? <==> !HasOption(data, section, option)
    ensures r.Some? && !expand ==> r.value == Lookup(data, section, option).value.value
  {
    if section !in data || option !in data[section].values then None
    else if !expand then Some(data[section].values[option].value)
    else Some(Expanded(data[section].values, option, {}))
  }

  /** A value without '$' or '\' expands to itself. */
  lemma {:induction false} PlainValue(vals: map<string, Item>, v: string, i: nat, visiting: set<string>)
    requires i <= |v| && forall k :: i <= k < |v| ==> v[k] != '$' && v[k] != '\\'
    ensures Substituted(vals, v, i, false, visiting) == v[i..]
    decreases |v| - i
  {
    if i < |v| {
      PlainValue(vals, v, i + 1, visiting);
      assert v[i..] == [v[i]] + v[i + 1..];
    }
  }

  /** "\$" followed by plain text gives "$" followed by that text. */
  lemma EscapedDollar(vals: map<string, Item>, t: string, visiting: set<string>)
    requires forall k :: 0 <= k < |t| ==> t[k] != '$' && t[k] != '\\'
    ensures Substituted(vals, "\\$" + t, 0, false, visiting) == "$" + t
  {
    var v := "\\$" + t;
    PlainValue(vals, v, 2, visiting);
    assert v[2..] == t;
  }

  /** An option whose value is exactly a reference to itself reads as the error string. */
  lemma SelfReference(data: Store, section: string, option: string)
    requires HasOption(data, section, option)
    requires Lookup(data, section, option).value.value == "${" + option + "}"
    requires forall k :: 0 <= k < |option| ==> option[k] != '}'
    ensures Get(data, true, section, option) == Some(ErrorString)
  {
    var vals := data[section].values;
    var v := vals[option].value;
    var e := |option| + 2;
    assert v[e] == '}';
    assert RefAt(v, 0) == Some(e);
    assert v[2..e] == option;
    assert |v| == e + 1;
    assert Substituted(vals, v, e + 1, false, {option}) == "";
    assert Expanded(vals, option, {option}) == ErrorString;
    assert Substituted(vals, v, 0, false, {option}) == ErrorString + "";
    assert ErrorString + "" == ErrorString;
    assert {} + {option} == {option};
    assert Expanded(vals, option, {}) == Substituted(vals, v, 0, false, {option});
  }

  /** A reference to an option the section does not hold is kept as written. */
  lemma UndefinedReference(vals: map<string, Item>, name: string, visiting: set<string>)
    requires name !in vals
    requires forall k :: 0 <= k < |name| ==> name[k] != '}'
    ensures Substituted(vals, "${" + name + "}", 0, false, visiting) == "${" + name + "}"
  {
    var v := "${" + name + "}";
    var e := |name| + 2;
    assert v[e] == '}';
    assert RefAt(v, 0) == Some(e);
    assert v[2..e] == name;
    assert v[0..e + 1] == v;
  }

  // ---------------------------------------------------------------------
  // Typed getters

  /** parser_getlong / parser_getulong: -1 when undefined, else what sscanf (the parameter scan) reports. */
  function GetScanned(data: Store, expand: bool, section: string, option: string, scan: string -> Fetched): (r: Fetched)
    ensures !HasOption(data, section, option) ==> r.ret == -1
    ensures HasOption(data, section, option) ==> r == scan(Get(data, expand, section, option).value)
  {
    match Get(data, expand, section, option)
    case None => Fetched(-1, 0)
    case Some(v) => scan(v)
  }

  /** The range check of parser_getint, parser_getuint and parser_getushort: a converted value outside [lo, hi] makes the getter return 0. */
  function InRange(f: Fetched, lo: int, hi: int): (r: Fetched)
    ensures r.ret == 1 ==> lo <= r.value <= hi && r == f
    ensures f.ret == 1 && !(lo <= f.value <= hi) ==> r.ret == 0
    ensures f.ret != 1 ==> r == f
  {
    if f.ret == 1 && !(lo <= f.value <= hi) then Fetched(0, f.value) else f
  }

  const INT_MIN: int := -0x8000_0000
  const INT_MAX: int := 0x7FFF_FFFF
  const UINT_MAX: int := 0xFFFF_FFFF
  const USHRT_MAX: int := 0xFFFF

  /** parser_getint. */
  function GetInt(data: Store, expand: bool, section: string, option: string, scan: string -> Fetched): (r: Fetched)
    ensures r.ret == 1 ==> INT_MIN <= r.value <= INT_MAX
    ensures var f := GetScanned(data, expand, section, option, scan);
      (f.ret == 1 && !(INT_MIN <= f.value <= INT_MAX) ==> r.ret == 0) && (r.ret == 1 ==> r == f)
  {
    InRange(GetScanned(data, expand, section, option, scan), INT_MIN, INT_MAX)
  }

  /** parser_getuint. */
  function GetUInt(data: Store, expand: bool, section: string, option: string, scan: string -> Fetched): (r: Fetched)
    requires forall t :: scan(t).ret == 1 ==> scan(t).value >= 0
    ensures r.ret == 1 ==> 0 <= r.value <= UINT_MAX
    ensures var f := GetScanned(data, expand, section, option, scan);
      (f.ret == 1 && f.value > UINT_MAX ==> r.ret == 0) && (r.ret == 1 ==> r == f)
  {
    var f := GetScanned(data, expand, section, option, scan);
    if f.ret == 1 && f.value > UINT_MAX then Fetched(0, f.value) else f
  }

  /** parser_getushort. */
  function GetUShort(data: Store, expand: bool, section: string, option: string, scan: string -> Fetched): (r: Fetched)
    requires forall t :: scan(t).ret == 1 ==> scan(t).value >= 0
    ensures r.ret == 1 ==> 0 <= r.value <= USHRT_MAX
    ensures var f := GetScanned(data, expand, section, option, scan);
      (f.ret == 1 && f.value > USHRT_MAX ==> r.ret == 0) && (r.ret == 1 ==> r == f)
  {
    var f := GetScanned(data, expand, section, option, scan);
    if f.ret == 1 && f.value > USHRT_MAX then Fetched(0, f.value) else f
  }

  /** tolower in the C locale. */
  function Lower(c: char): char {
    if 'A' <= c <= 'Z' then (c as int + 32) as char else c
  }

  /** strcasecmp(s, w) == 0 for a lower-case word w. */
  predicate SameWord(s: string, w: string) {
    |s| == |w| && forall k :: 0 <= k < |s| ==> Lower(s[k]) == w[k]
  }

  predicate IsTrueWord(s: string) {
    SameWord(s, "yes") || SameWord(s, "1") || SameWord(s, "true") || SameWord(s, "on")
  }

  predicate IsFalseWord(s: string) {
    SameWord(s, "no") || SameWord(s, "0") || SameWord(s, "false") || SameWord(s, "off")
  }

  /** parser_getboolean: 1 and true for yes/1/true/on, 1 and false for no/0/false/off, in any case; 0 for any other value. */
  function GetBoolean(data: Store, expand: bool, section: string, option: string): (r: Fetched)
    ensures r.ret == -1 <==> !HasOption(data, section, option)
    ensures r.ret == 1 && r.value == 1 <==> HasOption(data, section, option) && IsTrueWord(Get(data, expand, section, option).value)
    ensures r.ret == 1 && r.value == 0 <==> HasOption(data, section, option) && IsFalseWord(Get(data, expand, section, option).value)
    ensures r.ret in {-1, 0, 1}
  {
    match Get(data, expand, section, option)
    case None => Fetched(-1, 0)
    case Some(v) =>
      BooleanWordsDisjoint(v);
      if IsTrueWord(v) then Fetched(1, 1)
      else if IsFalseWord(v) then Fetched(1, 0)
      else Fetched(0, 0)
  }

  /** No word is both true and false, so the order of the two tests of parser_getboolean does not matter. */
  lemma BooleanWordsDisjoint(s: string)
    ensures !(IsTrueWord(s) && IsFalseWord(s))
  {
    if |s| > 0 && IsTrueWord(s) {
      assert Lower(s[0]) in {'y', '1', 't', 'o'};
      if SameWord(s, "on") {
        assert Lower(s[1]) == 'n';
      }
    }
  }

  // ---------------------------------------------------------------------
  // Comments

  /**
   * Where remove_comments cuts the string s, scanning from i: the first '#'
   * or ';' that is not escaped by a backslash, or the end of s.
   */
  function CommentStart(s: string, i: nat, escaped: bool): (p: nat)
    requires i <= |s|
    ensures i <= p <= |s|
    decreases |s| - i
  {
    if i == |s| then |s|
    else if escaped then CommentStart(s, i + 1, false)
    else if s[i] == '\\' then CommentStart(s, i + 1, true)
    else if s[i] == '#' || s[i] == ';' then i
    else CommentStart(s, i + 1, false)
  }

  /** The cut is at a comment character, and every comment character before it directly follows a backslash. */
  lemma {:induction false} CommentStartIsFirst(s: string, i: nat, escaped: bool)
    requires i <= |s| && (escaped ==> i > 0 && s[i - 1] == '\\')
    ensures var p := CommentStart(s, i, escaped);
      (p < |s| ==> s[p] == '#' || s[p] == ';')
      && forall k :: i <= k < p && (s[k] == '#' || s[k] == ';') ==> k > 0 && s[k - 1] == '\\'
    decreases |s| - i
  {
    if i < |s| {
      if escaped {
        CommentStartIsFirst(s, i + 1, false);
      } else if s[i] == '\\' {
        CommentStartIsFirst(s, i + 1, true);
      } else if s[i] != '#' && s[i] != ';' {
        CommentStartIsFirst(s, i + 1, false);
      }
    }
  }

  /** The index of the terminating '\0' of a C string held in a. */
  function NulAt(a: seq<char>): (z: nat)
    requires '\0' in a
    ensures z < |a| && a[z] == '\0' && '\0' !in a[..z]
  {
    if a[0] == '\0' then 0 else
      assert '\0' in a[1..] by { var k :| 0 <= k < |a| && a[k] == '\0'; assert a[1..][k - 1] == '\0'; }
      var z := 1 + NulAt(a[1..]);
      assert a[..z] == [a[0]] + a[1..][..z - 1];
      z
  }

  /**
   * remove_comments: the line is cut, in place, at its first unescaped '#'
   * or ';'; every other byte is rewritten with the value it had. The result
   * is the length of what is left.
   */
  method RemoveComments(line: array<char>) returns (n: int)
    requires '\0' in line[..]
    modifies line
    ensures var z := NulAt(old(line[..])); var p := CommentStart(old(line[..z]), 0, false);
      n == p && line[..] == old(line[..])[p := '\0']
  {
    ghost var z := NulAt(line[..]);
    ghost var s := line[..z];
    var src := 0;
    var dst := 0;
    var escaped := false;
    while true
      invariant src <= z && line[..] == old(line[..])
      invariant if escaped then src > 0 && dst == src - 1 && line[src - 1] == '\\' else dst == src
      invariant CommentStart(s, src, escaped) == CommentStart(s, 0, false)
      decreases z - src
    {
      if !escaped {
        if line[src] == '\\' {
          escaped := true;
        } else if line[src] == '#' || line[src] == ';' {
          line[dst] := '\0';
          dst := dst + 1;
          break;
        } else {
          line[dst] := line[src];
          dst := dst + 1;
        }
      } else {
        line[dst] := '\\';
        dst := dst + 1;
        line[dst] := line[src];
        dst := dst + 1;
        escaped := false;
      }
      if line[src] == '\0' {
        break;
      }
      src := src + 1;
    }
    n := dst - 1;
  }

  // ---------------------------------------------------------------------
  // The parser context

  /** parser_context_t: the sections tree and the three switches of parser_init. */
  class Parser {
    var data: Store
    const allowDefault: bool
    const allowEmpty: bool
    const allowExpansions: bool

    /** n_values counts the options of each section. */
    ghost predicate Valid()
      reads this
    {
      Counted(data)
    }

    /** parser_init: no sections. */
    constructor (allowDefault: bool, allowEmpty: bool, allowExpansions: bool)
      ensures Valid() && data == map[]
      ensures this.allowDefault == allowDefault && this.allowEmpty == allowEmpty && this.allowExpansions == allowExpansions
    {
      data := map[];
      this.allowDefault := allowDefault;
      this.allowEmpty := allowEmpty;
      this.allowExpansions := allowExpansions;
    }

    /** parser_set: get or create the section, get or create the option, store the value and line. */
    method Set(section: string, option: string, value: string, nline: int)
      requires Valid()
      modifies this
      ensures Valid() && data == SetIn(old(data), section, option, value, nline)
    {
      var sec: Section;
      if section !in data {
        sec := Section(map[], 0);
      } else {
        sec := data[section];
      }
      var n := sec.nValues;
      if option !in sec.values {
        n := n + 1;
      }
      data := data[section := Section(sec.values[option := Item(value, nline)], n)];
    }

    /** parser_add_section. */
    method AddSection(section: string)
      requires Valid()
      modifies this
      ensures Valid() && data == AddSectionIn(old(data), section)
    {
      if section !in data {
        data := data[section := Section(map[], 0)];
      }
    }

    /** parser_remove_option, corrected to hand tdelete the search item (see RemoveOptionAsWritten). */
    method RemoveOption(section: string, option: string)
      requires Valid()
      modifies this
      ensures Valid() && data == RemoveOptionIn(old(data), section, option)
    {
      if section !in data {
        return;
      }
      var sec := data[section];
      if option in sec.values {
        data := data[section := Section(sec.values - {option}, sec.nValues - 1)];
      }
    }

    /** parser_remove_section, corrected to hand tdelete the search item (see RemoveSectionAsWritten). */
    method RemoveSection(section: string)
      requires Valid()
      modifies this
      ensures Valid() && data == RemoveSectionIn(old(data), section)
    {
      if section !in data {
        return;
      }
      data := data - {section};
    }
  }
}
