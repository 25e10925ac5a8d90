/**
 * The two text rewrites of the test helpers (tests/helpers/ptrack_helpers.py):
 * set_auto_conf, which rewrites postgresql.auto.conf with some options set
 * and others removed, and change_backup_status, which rewrites the status
 * line of a backup.control file. Reading and writing the files, and the
 * server reload, are left to the caller: the rewrites map the old text to
 * the new text.
 */
module AutoConf {
  import opened Common
  import opened PyText

  // ---------------------------------------------------------------------
  // Lines of a configuration file
  // ---------------------------------------------------------------------

  /** How set_auto_conf reads one line. */
  datatype Line = Ignored | Directive(text: string) | Setting(name: string, value: string)

  /**
   * The value of a setting line, from what follows its first '=': white
   * space, then double quotes, then single quotes stripped from both ends.
   */
  function SettingValue(after: string): (v: string)
    ensures Unpadded(v, Char('\''))
    ensures NoBreaks(after) ==> NoBreaks(v)
  {
    var unspaced := Strip(after, Spaces);
    var unquoted := Strip(unspaced, Char('"'));
    StripKeepsNoBreaks(after, Spaces);
    StripKeepsNoBreaks(unspaced, Char('"'));
    StripKeepsNoBreaks(unquoted, Char('\''));
    Strip(unquoted, Char('\''))
  }

  /** The name of a setting line, from what precedes its first '=': white space stripped. */
  function SettingName(before: string): (n: string)
    ensures Unpadded(n, Spaces)
    ensures '=' !in before ==> '=' !in n
    ensures NoBreaks(before) ==> NoBreaks(n)
  {
    StripKeepsAbsent(before, Spaces, '=');
    StripKeepsNoBreaks(before, Spaces);
    Strip(before, Spaces)
  }

  function ClassifyLine(line: string): (l: Line)
    ensures l.Ignored? <==> line == "" || StartsWith(line, "#")
    ensures StartsWith(line, "include") ==> l == Directive(line)
    ensures l.Directive? ==> l.text == line && StartsWith(line, "include")
    ensures l.Setting? ==> Unpadded(l.name, Spaces) && '=' !in l.name && Unpadded(l.value, Char('\''))
    ensures l.Setting? && NoBreaks(line) ==> NoBreaks(l.name) && NoBreaks(l.value)
  {
    if StartsWith(line, "#") || line == "" then
      assert StartsWith(line, "#") ==> line[0] == '#';
      Ignored
    else if StartsWith(line, "include") then Directive(line)
    else
      var parts := Partition(line, '=');
      PartitionNoBreaks(line, '=');
      Setting(SettingName(parts.0), SettingValue(parts.1))
  }

  /** Each line of a file, classified. */
  function Classify(lines: seq<string>): seq<Line> {
    seq(|lines|, i requires 0 <= i < |lines| => ClassifyLine(lines[i]))
  }

  // ---------------------------------------------------------------------
  // Insertion-ordered dicts
  // ---------------------------------------------------------------------

  /** A Python dict from names to values: its keys in insertion order, and its entries. */
  datatype Dict = Dict(keys: seq<string>, values: map<string, string>)

  ghost predicate Valid(d: Dict) {
    && (forall i, j :: 0 <= i < j < |d.keys| ==> d.keys[i] != d.keys[j])
    && (forall k :: k in d.values <==> k in d.keys)
  }

  /** d[k] = v: a new key goes last, an existing key keeps its place. */
  function Put(d: Dict, k: string, v: string): (e: Dict)
    ensures Valid(d) ==> Valid(e)
    ensures e.values == d.values[k := v]
    ensures |d.keys| <= |e.keys| && e.keys[..|d.keys|] == d.keys
    ensures k in d.values ==> e.keys == d.keys
  {
    if k in d.values then Dict(d.keys, d.values[k := v]) else Dict(d.keys + [k], d.values[k := v])
  }

  // ---------------------------------------------------------------------
  // set_auto_conf
  // ---------------------------------------------------------------------

  /** What the parsing loop collects: current_options and current_directives. */
  datatype Conf = Conf(options: Dict, directives: seq<string>)

  /** The parsing loop after the given classified lines. */
  function Parse(ls: seq<Line>, rmOptions: set<string>): (c: Conf)
    ensures Valid(c.options)
  {
    if ls == [] then Conf(Dict([], map[]), [])
    else
      var c := Parse(ls[..|ls| - 1], rmOptions);
      match ls[|ls| - 1]
      case Ignored => c
      case Directive(text) => c.(directives := c.directives + [text])
      case Setting(name, value) =>
        if name in rmOptions then c else c.(options := Put(c.options, name, value))
  }

  /** The value the last occurrence of a name among the options passed in gives it. */
  function LastValues(options: seq<(string, string)>): map<string, string> {
    if options == [] then map[]
    else LastValues(options[..|options| - 1])[options[|options| - 1].0 := options[|options| - 1].1]
  }

  /** The loop setting the options passed in. */
  function Override(d: Dict, options: seq<(string, string)>): (e: Dict)
    ensures Valid(d) ==> Valid(e)
  {
    if options == [] then d
    else Put(Override(d, options[..|options| - 1]), options[|options| - 1].0, options[|options| - 1].1)
  }

  function OptionLine(name: string, value: string): string {
    name + " = '" + value + "'"
  }

  /** One "name = 'value'" line per key, in key order. */
  function OptionLines(d: Dict): seq<string>
    requires Valid(d)
  {
    seq(|d.keys|, i requires 0 <= i < |d.keys| => OptionLine(d.keys[i], d.values[d.keys[i]]))
  }

  /** The new text of the configuration file. */
  function SetAutoConfSpec(raw: string, options: seq<(string, string)>, rmOptions: set<string>): string {
    var c := Parse(Classify(SplitLines(raw)), rmOptions);
    JoinLines(OptionLines(Override(c.options, options)) + c.directives)
  }

  /** set_auto_conf, from the text read to the text written. */
  method SetAutoConf(raw: string, options: seq<(string, string)>, rmOptions: set<string>) returns (autoConf: string)
    ensures autoConf == SetAutoConfSpec(raw, options, rmOptions)
  {
    var current, currentDirectives := ParseAutoConf(SplitLines(raw), rmOptions);
    ghost var parsed := current;
    for j := 0 to |options|
      invariant current == Override(parsed, options[..j])
    {
      assert options[..j + 1][..j] == options[..j];
      current := Put(current, options[j].0, options[j].1);
    }
    assert options[..|options|] == options;
    autoConf := WriteAutoConf(current, currentDirectives);
  }

  /** The parsing loop of set_auto_conf: the options kept and the directives, in order. */
  method ParseAutoConf(lines: seq<string>, rmOptions: set<string>) returns (current: Dict, currentDirectives: seq<string>)
    ensures Conf(current, currentDirectives) == Parse(Classify(lines), rmOptions)
  {
    ghost var classified := Classify(lines);
    current := Dict([], map[]);
    currentDirectives := [];
    for i := 0 to |lines|
      invariant Parse(classified[..i], rmOptions) == Conf(current, currentDirectives)
    {
      assert classified[..i + 1][..i] == classified[..i];
      assert classified[..i + 1][i] == classified[i];
      var line := lines[i];
      assert classified[i] == ClassifyLine(line);
      if StartsWith(line, "#") {
        continue;
      }
      if line == "" {
        continue;
      }
      if StartsWith(line, "include") {
        currentDirectives := currentDirectives + [line];
        continue;
      }
      var parts := Partition(line, '=');
      var name := Strip(parts.0, Spaces);
      var value := Strip(parts.1, Spaces);
      value := Strip(value, Char('"'));
      value := Strip(value, Char('\''));
      assert classified[i] == Setting(name, value);
      if name in rmOptions {
        continue;
      }
      current := Put(current, name, value);
    }
    assert classified[..|lines|] == classified;
  }

  /** The writing loops of set_auto_conf: one line per option, then the directives. */
  method WriteAutoConf(current: Dict, currentDirectives: seq<string>) returns (autoConf: string)
    requires Valid(current)
    ensures autoConf == JoinLines(OptionLines(current) + currentDirectives)
  {
    ghost var optionLines := OptionLines(current);
    autoConf := "";
    for k := 0 to |current.keys|
      invariant autoConf == JoinLines(optionLines[..k])
    {
      JoinLinesAppend(optionLines[..k], optionLines[k]);
      assert optionLines[..k + 1] == optionLines[..k] + [optionLines[k]];
      autoConf := autoConf + OptionLine(current.keys[k], current.values[current.keys[k]]) + "\n";
    }
    assert optionLines[..|current.keys|] == optionLines;
    autoConf := AppendLines(autoConf, currentDirectives);
    JoinLinesConcat(optionLines, currentDirectives);
  }

  /** A loop appending each line and a line break. */
  method AppendLines(text: string, lines: seq<string>) returns (r: string)
    ensures r == text + JoinLines(lines)
  {
    r := text;
    for m := 0 to |lines|
      invariant r == text + JoinLines(lines[..m])
    {
      JoinLinesAppend(lines[..m], lines[m]);
      assert lines[..m + 1] == lines[..m] + [lines[m]];
      r := r + lines[m] + "\n";
    }
    assert lines[..|lines|] == lines;
  }

  // ---------------------------------------------------------------------
  // What set_auto_conf does to the options and directives
  // ---------------------------------------------------------------------

  /** The include lines, in their order. */
  function IncludeLines(lines: seq<string>): seq<string> {
    if lines == [] then []
    else IncludeLines(lines[..|lines| - 1]) + (if StartsWith(lines[|lines| - 1], "include") then [lines[|lines| - 1]] else [])
  }

  /** The directives kept are exactly the include lines, in order; comments and empty lines leave no trace. */
  lemma {:induction false} DirectivesAreIncludeLines(lines: seq<string>, rmOptions: set<string>)
    ensures Parse(Classify(lines), rmOptions).directives == IncludeLines(lines)
  {
    if lines != [] {
      var init := lines[..|lines| - 1];
      DirectivesAreIncludeLines(init, rmOptions);
      assert Classify(lines)[..|lines| - 1] == Classify(init);
    }
  }

  /** A name set by some line. */
  ghost predicate SetByLine(ls: seq<Line>, name: string) {
    exists i :: 0 <= i < |ls| && ls[i].Setting? && ls[i].name == name
  }

  /** The line that sets a name last, with the value it gives. */
  ghost predicate LastSetting(ls: seq<Line>, name: string, value: string) {
    exists i :: 0 <= i < |ls| && ls[i] == Setting(name, value)
                && forall j :: i < j < |ls| ==> !(ls[j].Setting? && ls[j].name == name)
  }

  /** The options kept are the names some line sets, minus the removed ones; each with the value of its last line. */
  lemma {:induction false} ParsedOptions(ls: seq<Line>, rmOptions: set<string>, name: string)
    ensures name in Parse(ls, rmOptions).options.values <==> name !in rmOptions && SetByLine(ls, name)
    ensures name in Parse(ls, rmOptions).options.values ==> LastSetting(ls, name, Parse(ls, rmOptions).options.values[name])
  {
    if ls != [] {
      var init := ls[..|ls| - 1];
      var last := ls[|ls| - 1];
      ParsedOptions(init, rmOptions, name);
      if last.Setting? && last.name == name {
        assert SetByLine(ls, name) by { assert ls[|ls| - 1].Setting?; }
      } else {
        SetByLineInit(ls, name);
        if name in Parse(ls, rmOptions).options.values {
          LastSettingInit(ls, name, Parse(ls, rmOptions).options.values[name]);
        }
      }
    }
  }

  /** A name the last line does not set is set by the whole sequence iff by the others. */
  lemma SetByLineInit(ls: seq<Line>, name: string)
    requires ls != [] && !(ls[|ls| - 1].Setting? && ls[|ls| - 1].name == name)
    ensures SetByLine(ls, name) <==> SetByLine(ls[..|ls| - 1], name)
  {
    var init := ls[..|ls| - 1];
    if SetByLine(ls, name) {
      var i :| 0 <= i < |ls| && ls[i].Setting? && ls[i].name == name;
      assert init[i] == ls[i];
    }
    if SetByLine(init, name) {
      var i :| 0 <= i < |init| && init[i].Setting? && init[i].name == name;
      assert ls[i] == init[i];
    }
  }

  lemma LastSettingInit(ls: seq<Line>, name: string, value: string)
    requires ls != [] && !(ls[|ls| - 1].Setting? && ls[|ls| - 1].name == name)
    requires LastSetting(ls[..|ls| - 1], name, value)
    ensures LastSetting(ls, name, value)
  {
    var init := ls[..|ls| - 1];
    var i :| 0 <= i < |init| && init[i] == Setting(name, value)
             && forall j :: i < j < |init| ==> !(init[j].Setting? && init[j].name == name);
    assert ls[i] == init[i];
    assert forall j :: i < j < |init| ==> ls[j] == init[j];
  }

  /**
   * The options passed in override in place: the existing keys keep their
   * order and stay first, the options passed in get their last value, the
   * other entries keep theirs, and no other key appears.
   */
  lemma {:induction false} OverrideInPlace(d: Dict, options: seq<(string, string)>)
    ensures var e := Override(d, options);
      && |d.keys| <= |e.keys| && e.keys[..|d.keys|] == d.keys
      && e.values == d.values + LastValues(options)
  {
    if options != [] {
      OverrideInPlace(d, options[..|options| - 1]);
      var e0 := Override(d, options[..|options| - 1]);
      var e := Override(d, options);
      assert e.keys[..|e0.keys|] == e0.keys;
      assert e.keys[..|d.keys|] == e0.keys[..|d.keys|];
    }
  }

  lemma {:induction false} LastValuesKeys(options: seq<(string, string)>)
    ensures LastValues(options).Keys == set i | 0 <= i < |options| :: options[i].0
  {
    if options != [] {
      LastValuesKeys(options[..|options| - 1]);
    }
  }

  /** Setting options whose names are all keys already changes no key's place. */
  lemma {:induction false} OverrideKeepsKeys(d: Dict, options: seq<(string, string)>)
    requires forall i :: 0 <= i < |options| ==> options[i].0 in d.values
    ensures Override(d, options).keys == d.keys
    ensures Override(d, options).values.Keys == d.values.Keys
  {
    if options != [] {
      OverrideKeepsKeys(d, options[..|options| - 1]);
    }
  }

  /** Setting the same options a second time changes nothing. */
  lemma OverrideIdempotent(d: Dict, options: seq<(string, string)>)
    ensures Override(Override(d, options), options) == Override(d, options)
  {
    var e := Override(d, options);
    OverrideInPlace(d, options);
    OverrideInPlace(e, options);
    LastValuesKeys(options);
    assert forall i :: 0 <= i < |options| ==> options[i].0 in LastValues(options);
    OverrideKeepsKeys(e, options);
    assert e.values + LastValues(options) == e.values;
  }

  lemma {:induction false} LastValueIsPassed(options: seq<(string, string)>, k: string)
    requires k in LastValues(options)
    ensures exists i :: 0 <= i < |options| && options[i] == (k, LastValues(options)[k])
  {
    var last := options[|options| - 1];
    if last.0 != k {
      LastValueIsPassed(options[..|options| - 1], k);
      var i :| 0 <= i < |options| - 1 && options[..|options| - 1][i] == (k, LastValues(options[..|options| - 1])[k]);
      assert options[i] == options[..|options| - 1][i];
    }
  }

  /** The removed options stay absent from the file, unless passed in again. */
  lemma RemovedStayRemoved(raw: string, options: seq<(string, string)>, rmOptions: set<string>, name: string)
    requires name in rmOptions
    requires forall i :: 0 <= i < |options| ==> options[i].0 != name
    ensures name !in Override(Parse(Classify(SplitLines(raw)), rmOptions).options, options).values
  {
    var c := Parse(Classify(SplitLines(raw)), rmOptions);
    ParsedOptions(Classify(SplitLines(raw)), rmOptions, name);
    OverrideInPlace(c.options, options);
    LastValuesKeys(options);
  }

  // ---------------------------------------------------------------------
  // Reading back what set_auto_conf writes
  // ---------------------------------------------------------------------

  /** A name an option line of its own reads back as. */
  predicate ConfName(name: string) {
    NoBreaks(name) && '=' !in name && Unpadded(name, Spaces) && !StartsWith(name, "#") && !StartsWith(name, "include")
  }

  /** A value an option line of its own reads back as. */
  predicate ConfValue(value: string) {
    NoBreaks(value) && Unpadded(value, Char('\''))
  }

  lemma StripPaddedName(name: string)
    requires Unpadded(name, Spaces)
    ensures SettingName(name + " ") == name
  {
    var s := name + " ";
    if name == [] {
      assert StripLeft(s, Spaces) == StripLeft(s[1..], Spaces);
    } else {
      assert StripLeft(s, Spaces) == s;
      assert s[..|s| - 1] == name;
      assert StripRight(s, Spaces) == StripRight(name, Spaces);
    }
  }

  lemma StripQuotedValue(value: string)
    requires Unpadded(value, Char('\''))
    ensures SettingValue(" '" + value + "'") == value
  {
    var quoted := "'" + value + "'";
    var spaced := " '" + value + "'";
    assert spaced[1..] == quoted;
    assert StripLeft(spaced, Spaces) == StripLeft(quoted, Spaces);
    assert Strip(spaced, Spaces) == quoted;
    assert Strip(quoted, Char('"')) == quoted;
    assert quoted[1..] == value + "'";
    assert StripLeft(quoted, Char('\'')) == StripLeft(value + "'", Char('\''));
    if value == [] {
      assert StripLeft(value + "'", Char('\'')) == StripLeft([], Char('\''));
    } else {
      assert StripLeft(value + "'", Char('\'')) == value + "'";
      assert (value + "'")[..|value|] == value;
      assert StripRight(value + "'", Char('\'')) == StripRight(value, Char('\''));
    }
  }

  /** A prefix that a name does not start with is not one of the name followed by a character outside the prefix. */
  lemma StartsWithLonger(name: string, rest: string, prefix: string)
    requires !StartsWith(name, prefix) && rest != [] && rest[0] !in prefix
    ensures !StartsWith(name + rest, prefix)
  {
    if |name| < |prefix| <= |name + rest| {
      assert (name + rest)[|name|] == rest[0];
      assert (name + rest)[..|prefix|][|name|] == rest[0];
    }
    if |prefix| <= |name| {
      assert (name + rest)[..|prefix|] == name[..|prefix|];
    }
  }

  /** An option line reads back as the name and value it was written from. */
  lemma ClassifyOptionLine(name: string, value: string)
    requires ConfName(name) && ConfValue(value)
    ensures ClassifyLine(OptionLine(name, value)) == Setting(name, value)
  {
    var line := OptionLine(name, value);
    assert line != [] && !StartsWith(line, "#") && !StartsWith(line, "include") by {
      StartsWithLonger(name, " = '" + value + "'", "#");
      StartsWithLonger(name, " = '" + value + "'", "include");
    }
    PartitionOptionLine(name, value);
    StripPaddedName(name);
    StripQuotedValue(value);
  }

  /** An option line splits at its first '=' into the padded name and the quoted value. */
  lemma PartitionOptionLine(name: string, value: string)
    requires '=' !in name
    ensures Partition(OptionLine(name, value), '=') == (name + " ", " '" + value + "'")
  {
    var line := OptionLine(name, value);
    var after := " '" + value + "'";
    assert line == (name + " ") + ['='] + after;
    FindAfter(name + " ", '=', after);
    assert line[..|name| + 1] == name + " ";
    assert line[|name| + 2..] == after;
  }

  /** A dict whose keys and values all read back. */
  ghost predicate Readable(d: Dict) {
    Valid(d) && forall k :: k in d.values ==> ConfName(k) && ConfValue(d.values[k])
  }

  /** The lines a dict's entries read back as, in key order. */
  function Settings(d: Dict): seq<Line>
    requires Valid(d)
  {
    seq(|d.keys|, i requires 0 <= i < |d.keys| => Setting(d.keys[i], d.values[d.keys[i]]))
  }

  /** The option lines of a readable dict read back as its entries. */
  lemma ClassifyOptionLines(d: Dict)
    requires Readable(d)
    ensures Classify(OptionLines(d)) == Settings(d)
  {
    forall i | 0 <= i < |d.keys|
      ensures ClassifyLine(OptionLines(d)[i]) == Settings(d)[i]
    {
      ClassifyOptionLine(d.keys[i], d.values[d.keys[i]]);
    }
  }

  /** A dict's entries parse back into it, the first n into its first n keys. */
  lemma {:induction false} ParseSettings(d: Dict, rmOptions: set<string>, n: nat)
    requires Valid(d) && n <= |d.keys|
    requires forall k :: k in d.values ==> k !in rmOptions
    ensures Parse(Settings(d)[..n], rmOptions) == Conf(Dict(d.keys[..n], map k | k in d.keys[..n] :: d.values[k]), [])
  {
    if n > 0 {
      var ls := Settings(d)[..n];
      var k := d.keys[n - 1];
      assert ls[..n - 1] == Settings(d)[..n - 1];
      assert ls[n - 1] == Setting(k, d.values[k]);
      ParseSettings(d, rmOptions, n - 1);
      assert k !in d.keys[..n - 1];
      EntriesExtend(d.keys, d.values, n);
    }
  }

  /** The first n keys are the first n - 1 and one more, and so are their entries. */
  lemma EntriesExtend(keys: seq<string>, values: map<string, string>, n: nat)
    requires 0 < n <= |keys| && forall k :: k in keys ==> k in values
    ensures keys[..n - 1] + [keys[n - 1]] == keys[..n]
    ensures (map k | k in keys[..n - 1] :: values[k])[keys[n - 1] := values[keys[n - 1]]]
         == map k | k in keys[..n] :: values[k]
  {
    assert keys[..n - 1] + [keys[n - 1]] == keys[..n];
  }

  /** Directive lines appended to any lines are kept as directives and nothing else. */
  lemma {:induction false} ParseDirectives(ls: seq<Line>, texts: seq<string>, rmOptions: set<string>)
    ensures Parse(ls + seq(|texts|, i requires 0 <= i < |texts| => Directive(texts[i])), rmOptions)
         == Parse(ls, rmOptions).(directives := Parse(ls, rmOptions).directives + texts)
  {
    var dirs := seq(|texts|, i requires 0 <= i < |texts| => Directive(texts[i]));
    if texts == [] {
      assert ls + dirs == ls;
    } else {
      var init := texts[..|texts| - 1];
      ParseDirectives(ls, init, rmOptions);
      assert (ls + dirs)[..|ls + dirs| - 1] == ls + seq(|init|, i requires 0 <= i < |init| => Directive(init[i]));
      assert init + [texts[|texts| - 1]] == texts;
    }
  }

  lemma ClassifyConcat(a: seq<string>, b: seq<string>)
    ensures Classify(a + b) == Classify(a) + Classify(b)
  {
    forall i | 0 <= i < |a + b| ensures Classify(a + b)[i] == (Classify(a) + Classify(b))[i] {
      if i < |a| {
        assert (a + b)[i] == a[i];
      } else {
        assert (a + b)[i] == b[i - |a|];
      }
    }
  }

  /** Include lines read back as directives and nothing else. */
  lemma ClassifyDirectives(texts: seq<string>)
    requires forall i :: 0 <= i < |texts| ==> StartsWith(texts[i], "include")
    ensures Classify(texts) == seq(|texts|, i requires 0 <= i < |texts| => Directive(texts[i]))
  {
  }

  /** The file set_auto_conf writes reads back as the options and directives it wrote. */
  lemma ReadBack(d: Dict, directives: seq<string>, rmOptions: set<string>)
    requires Readable(d)
    requires forall k :: k in d.values ==> k !in rmOptions
    requires forall i :: 0 <= i < |directives| ==> StartsWith(directives[i], "include") && NoBreaks(directives[i])
    ensures Parse(Classify(SplitLines(JoinLines(OptionLines(d) + directives))), rmOptions) == Conf(d, directives)
  {
    var lines := OptionLines(d) + directives;
    var dirs := seq(|directives|, i requires 0 <= i < |directives| => Directive(directives[i]));
    assert SplitLines(JoinLines(lines)) == lines by {
      OptionLinesNoBreaks(d);
      assert forall i :: 0 <= i < |lines| ==> lines[i] == if i < |d.keys| then OptionLines(d)[i] else directives[i - |d.keys|];
      SplitJoinedLines(lines);
    }
    assert Classify(lines) == Settings(d) + dirs by {
      ClassifyOptionLines(d);
      ClassifyConcat(OptionLines(d), directives);
      ClassifyDirectives(directives);
    }
    assert Parse(Settings(d) + dirs, rmOptions) == Conf(d, directives) by {
      ParseDirectives(Settings(d), directives, rmOptions);
      ParseAllSettings(d, rmOptions);
    }
  }

  /** A dict's entries parse back into it. */
  lemma ParseAllSettings(d: Dict, rmOptions: set<string>)
    requires Valid(d)
    requires forall k :: k in d.values ==> k !in rmOptions
    ensures Parse(Settings(d), rmOptions) == Conf(d, [])
  {
    ParseSettings(d, rmOptions, |d.keys|);
    assert Settings(d)[..|d.keys|] == Settings(d);
    assert d.keys[..|d.keys|] == d.keys;
    EntriesAll(d.keys, d.values);
  }

  lemma EntriesAll(keys: seq<string>, values: map<string, string>)
    requires forall k :: k in values <==> k in keys
    ensures (map k | k in keys[..|keys|] :: values[k]) == values
  {
    assert keys[..|keys|] == keys;
  }

  lemma OptionLinesNoBreaks(d: Dict)
    requires Readable(d)
    ensures forall i :: 0 <= i < |d.keys| ==> NoBreaks(OptionLines(d)[i])
  {
    forall i | 0 <= i < |d.keys|
      ensures NoBreaks(OptionLines(d)[i])
    {
      OptionLineNoBreaks(d.keys[i], d.values[d.keys[i]]);
    }
  }

  lemma OptionLineNoBreaks(name: string, value: string)
    requires NoBreaks(name) && NoBreaks(value)
    ensures NoBreaks(OptionLine(name, value))
  {
    var line := OptionLine(name, value);
    forall i | 0 <= i < |line|
      ensures !IsLineBreak(line[i])
    {
      if i < |name| {
        assert line[i] == name[i];
      } else if |name| + 4 <= i < |name| + 4 + |value| {
        assert line[i] == value[i - |name| - 4];
      }
    }
  }

  /** No setting line has a name that would read back as a comment or a directive. */
  predicate PlainNames(lines: seq<string>) {
    forall i :: 0 <= i < |lines| && ClassifyLine(lines[i]).Setting? ==>
      !StartsWith(ClassifyLine(lines[i]).name, "#") && !StartsWith(ClassifyLine(lines[i]).name, "include")
  }

  /** Setting readable options in a readable dict leaves it readable. */
  lemma {:induction false} OverrideReadable(d: Dict, options: seq<(string, string)>)
    requires Readable(d)
    requires forall i :: 0 <= i < |options| ==> ConfName(options[i].0) && ConfValue(options[i].1)
    ensures Readable(Override(d, options))
  {
    if options != [] {
      OverrideReadable(d, options[..|options| - 1]);
    }
  }

  /** Setting options none of which is to be removed keeps a dict free of removed names. */
  lemma {:induction false} OverrideAvoids(d: Dict, options: seq<(string, string)>, rmOptions: set<string>)
    requires forall k :: k in d.values ==> k !in rmOptions
    requires forall i :: 0 <= i < |options| ==> options[i].0 !in rmOptions
    ensures forall k :: k in Override(d, options).values ==> k !in rmOptions
  {
    if options != [] {
      OverrideAvoids(d, options[..|options| - 1], rmOptions);
    }
  }

  /** The options set_auto_conf keeps from the file: all readable, when no line's name looks like a comment or a directive. */
  lemma ParsedReadable(lines: seq<string>, rmOptions: set<string>)
    requires forall i :: 0 <= i < |lines| ==> NoBreaks(lines[i])
    requires PlainNames(lines)
    ensures Readable(Parse(Classify(lines), rmOptions).options)
    ensures forall k :: k in Parse(Classify(lines), rmOptions).options.values ==> k !in rmOptions
  {
    var c := Parse(Classify(lines), rmOptions);
    forall k | k in c.options.values
      ensures ConfName(k) && ConfValue(c.options.values[k]) && k !in rmOptions
    {
      ParsedOptions(Classify(lines), rmOptions, k);
      var i :| 0 <= i < |lines| && Classify(lines)[i] == Setting(k, c.options.values[k])
               && forall j :: i < j < |lines| ==> !(Classify(lines)[j].Setting? && Classify(lines)[j].name == k);
      assert ClassifyLine(lines[i]) == Setting(k, c.options.values[k]);
    }
  }

  /** The options set_auto_conf writes: all readable, and none to be removed. */
  lemma WrittenReadable(lines: seq<string>, rmOptions: set<string>, options: seq<(string, string)>)
    requires forall i :: 0 <= i < |lines| ==> NoBreaks(lines[i])
    requires PlainNames(lines)
    requires forall i :: 0 <= i < |options| ==> ConfName(options[i].0) && ConfValue(options[i].1)
    requires forall i :: 0 <= i < |options| ==> options[i].0 !in rmOptions
    ensures Readable(Override(Parse(Classify(lines), rmOptions).options, options))
    ensures forall k :: k in Override(Parse(Classify(lines), rmOptions).options, options).values ==> k !in rmOptions
  {
    var d := Parse(Classify(lines), rmOptions).options;
    ParsedReadable(lines, rmOptions);
    OverrideReadable(d, options);
    OverrideAvoids(d, options, rmOptions);
  }

  lemma {:induction false} IncludeLinesNoBreaks(lines: seq<string>)
    requires forall i :: 0 <= i < |lines| ==> NoBreaks(lines[i])
    ensures forall i :: 0 <= i < |IncludeLines(lines)| ==>
              StartsWith(IncludeLines(lines)[i], "include") && NoBreaks(IncludeLines(lines)[i])
  {
    if lines != [] {
      IncludeLinesNoBreaks(lines[..|lines| - 1]);
    }
  }

  /**
   * Setting the same options again leaves the file as it is, when the
   * option names read back as themselves and none is to be removed.
   */
  lemma SetAutoConfIdempotent(raw: string, options: seq<(string, string)>, rmOptions: set<string>)
    requires forall i :: 0 <= i < |options| ==> ConfName(options[i].0) && ConfValue(options[i].1)
    requires forall i :: 0 <= i < |options| ==> options[i].0 !in rmOptions
    requires PlainNames(SplitLines(raw))
    ensures SetAutoConfSpec(SetAutoConfSpec(raw, options, rmOptions), options, rmOptions)
         == SetAutoConfSpec(raw, options, rmOptions)
  {
    var lines := SplitLines(raw);
    var c := Parse(Classify(lines), rmOptions);
    var e := Override(c.options, options);
    WrittenReadable(lines, rmOptions, options);
    DirectivesAreIncludeLines(lines, rmOptions);
    IncludeLinesNoBreaks(lines);
    ReadBack(e, c.directives, rmOptions);
    OverrideIdempotent(c.options, options);
  }

  // ---------------------------------------------------------------------
  // change_backup_status
  // ---------------------------------------------------------------------

  /** Each line starting with "status" replaced by the new status line. */
  function StatusLines(lines: seq<string>, status: string): (r: seq<string>)
    ensures |r| == |lines|
  {
    seq(|lines|, i requires 0 <= i < |lines| => if StartsWith(lines[i], "status") then "status = " + status else lines[i])
  }

  /** change_backup_status, from the backup.control text read to the text written. */
  method ChangeBackupStatus(actualControl: string, status: string) returns (newControl: string)
    ensures newControl == JoinLines(StatusLines(SplitLines(actualControl), status))
  {
    var lines := SplitLines(actualControl);
    newControl := "";
    for i := 0 to |lines|
      invariant newControl == JoinLines(StatusLines(lines, status)[..i])
    {
      var line := lines[i];
      if StartsWith(line, "status") {
        line := "status = " + status;
      }
      JoinLinesAppend(StatusLines(lines, status)[..i], line);
      assert StatusLines(lines, status)[..i + 1] == StatusLines(lines, status)[..i] + [line];
      newControl := newControl + line;
      newControl := newControl + "\n";
    }
    assert StatusLines(lines, status)[..|lines|] == StatusLines(lines, status);
  }

  /** The rewritten file reads back as the old lines with only the status lines changed. */
  lemma ChangedStatusReadsBack(actualControl: string, status: string)
    requires NoBreaks(status)
    ensures SplitLines(JoinLines(StatusLines(SplitLines(actualControl), status)))
         == StatusLines(SplitLines(actualControl), status)
  {
    var read := SplitLines(actualControl);
    var lines := StatusLines(read, status);
    StatusLineNoBreaks(status);
    assert forall i :: 0 <= i < |lines| ==> lines[i] == read[i] || lines[i] == "status = " + status;
    SplitJoinedLines(lines);
  }

  lemma StatusLineNoBreaks(status: string)
    requires NoBreaks(status)
    ensures NoBreaks("status = " + status)
  {
    var line := "status = " + status;
    assert forall j :: 9 <= j < |line| ==> line[j] == status[j - 9];
  }

  /** Changing the status to the same value twice gives the file of the first change. */
  lemma ChangeBackupStatusIdempotent(actualControl: string, status: string)
    requires NoBreaks(status)
    ensures var once := JoinLines(StatusLines(SplitLines(actualControl), status));
            JoinLines(StatusLines(SplitLines(once), status)) == once
  {
    ChangedStatusReadsBack(actualControl, status);
    var lines := StatusLines(SplitLines(actualControl), status);
    assert forall i :: 0 <= i < |lines| && StartsWith(lines[i], "status") ==> lines[i] == "status = " + status;
    assert StatusLines(lines, status) == lines;
  }
}
