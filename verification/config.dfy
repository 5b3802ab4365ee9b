/**
 * Config: the .env reader and the lookups over the static key/value array it
 * fills. Whether the file exists and its non-empty lines (file() with
 * FILE_IGNORE_NEW_LINES | FILE_SKIP_EMPTY_LINES) are inputs of load; a thrown
 * RuntimeException is an error result carrying its message.
 */
module Config {
  import opened Util
  import opened Text

  // ---------------------------------------------------------------------
  // One line of the .env file
  // ---------------------------------------------------------------------

  /** strpos(trim($line), '#') === 0 */
  predicate IsComment(line: string)
  {
    var t := Trim(line);
    t != [] && t[0] == '#'
  }

  /** Position of the first '=' of a line that has one: explode('=', $line, 2) splits there. */
  function FirstEquals(line: string): (i: nat)
    requires '=' in line
    ensures i < |line| && line[i] == '='
    ensures forall k :: 0 <= k < i ==> line[k] != '='
  {
    if line[0] == '=' then 0 else 1 + FirstEquals(line[1..])
  }

  predicate IsQuote(c: char)
  {
    c == '"' || c == '\''
  }

  /** The characters PCRE's \s matches: space, \t, \n, vertical tab, form feed, \r. */
  predicate IsRegexSpace(c: char)
  {
    c == ' ' || c == '\t' || c == '\n' || c == '\U{000B}' || c == '\U{000C}' || c == '\r'
  }

  /** Number of \s characters at the back of `s`. */
  function TrailingRegexSpace(s: string): (k: nat)
    ensures k <= |s|
    ensures forall i :: |s| - k <= i < |s| ==> IsRegexSpace(s[i])
    ensures k < |s| ==> !IsRegexSpace(s[|s| - 1 - k])
  {
    if s == [] || !IsRegexSpace(s[|s| - 1]) then 0 else 1 + TrailingRegexSpace(s[..|s| - 1])
  }

  /**
   * preg_match('/^["\'](.*)["\']\s*$/', $value, $m) then $value = $m[1]: a
   * value opening with a quote and whose last non-\s character is a quote
   * (the two need not match) loses both; '.' does not cross a newline.
   */
  function StripQuotes(value: string): (r: string)
    ensures |r| <= |value|
  {
    var e := |value| - TrailingRegexSpace(value);
    if e >= 2 && IsQuote(value[0]) && IsQuote(value[e - 1]) && '\n' !in value[1..e - 1]
    then value[1..e - 1]
    else value
  }

  /** A value opening and closing with quote characters, with no newline inside, loses exactly those two. */
  lemma StripQuotesOfQuoted(open: char, inner: string, close: char)
    requires IsQuote(open) && IsQuote(close) && '\n' !in inner
    ensures StripQuotes([open] + inner + [close]) == inner
  {
    var v := [open] + inner + [close];
    assert v[|v| - 1] == close;
    assert TrailingRegexSpace(v) == 0;
    assert v[1..|v| - 1] == inner;
  }

  /** A value that does not open with a quote is kept as it is. */
  lemma StripQuotesOfUnquoted(value: string)
    requires value == [] || !IsQuote(value[0])
    ensures StripQuotes(value) == value
  {
  }

  /**
   * What one line contributes: nothing for a comment or a line without '=';
   * otherwise the trimmed text before the first '=' as key and the trimmed,
   * unquoted text after it as value.
   */
  function ParseLine(line: string): (r: Option<(string, string)>)
    ensures r.None? <==> IsComment(line) || '=' !in line
    ensures r.Some? ==> '=' !in r.value.0 && r.value.0 == Trim(r.value.0)
  {
    if IsComment(line) || '=' !in line then None else Some(SplitLine(line))
  }

  /** explode('=', $line, 2) with both sides trimmed and the value's quotes stripped. */
  function SplitLine(line: string): (r: (string, string))
    requires '=' in line
    ensures '=' !in r.0 && r.0 == Trim(r.0)
  {
    var i := FirstEquals(line);
    var key := Trim(line[..i]);
    TrimShape(line[..i]);
    assert forall j :: 0 <= j < |key| ==> key[j] in line[..i];
    TrimIdempotent(line[..i]);
    (key, StripQuotes(Trim(line[i + 1..])))
  }

  /** A trimmed key with no '=' and no leading '#', and a trimmed unquoted value, are read back from "key=value". */
  lemma ParseLineRoundTrip(key: string, value: string)
    requires key != [] && key == Trim(key) && '=' !in key && key[0] != '#'
    requires value == Trim(value) && (value == [] || !IsQuote(value[0]))
    ensures ParseLine(key + ['='] + value) == Some((key, value))
  {
    SplitAtKey(key, value);
  }

  /** A quoted value ('…', "…" or even '…") is read back without its quotes. */
  lemma ParseLineQuoted(key: string, open: char, inner: string, close: char)
    requires key != [] && key == Trim(key) && '=' !in key && key[0] != '#'
    requires IsQuote(open) && IsQuote(close) && '\n' !in inner
    ensures ParseLine(key + ['='] + ([open] + inner + [close])) == Some((key, inner))
  {
    var quoted := [open] + inner + [close];
    SplitAtKey(key, quoted);
    assert quoted[0] == open && quoted[|quoted| - 1] == close;
    TrimOfTrimmed(quoted);
    StripQuotesOfQuoted(open, inner, close);
  }

  /** "key=value" splits at the '=' after the key. */
  lemma SplitAtKey(key: string, value: string)
    requires key != [] && key == Trim(key) && '=' !in key && key[0] != '#'
    ensures var line := key + ['='] + value;
      && !IsComment(line) && '=' in line
      && FirstEquals(line) == |key|
      && line[..|key|] == key && line[|key| + 1..] == value
  {
    var line := key + ['='] + value;
    KeyLineNotComment(key, ['='] + value);
    assert line == key + (['='] + value);
    SplitThree(key, '=', value);
    assert forall k :: 0 <= k < |key| ==> line[k] == key[k] && key[k] in key;
    FirstEqualsAt(line, |key|);
  }

  /** The first '=' is the one with no '=' before it. */
  lemma FirstEqualsAt(line: string, j: nat)
    requires j < |line| && line[j] == '='
    requires forall k :: 0 <= k < j ==> line[k] != '='
    ensures FirstEquals(line) == j
  {
  }

  /** A line opening with a trimmed key whose first character is not '#' is no comment. */
  lemma KeyLineNotComment(key: string, rest: string)
    requires key != [] && key == Trim(key) && key[0] != '#'
    ensures !IsComment(key + rest)
  {
    var line := key + rest;
    TrimShape(key);
    assert !IsTrimChar(key[0]);
    assert line[0] == key[0];
    assert !IsTrimChar(line[0]);
    assert Trim(line) == TrimRight(line);
    TrimShape(line);
    assert Trim(line)[0] == line[0];
  }

  /** A comment line, and a line with no '=', contribute nothing. */
  lemma IgnoredLines(line: string)
    requires IsComment(line) || '=' !in line
    ensures ParseLine(line).None?
  {
  }

  // ---------------------------------------------------------------------
  // The whole file
  // ---------------------------------------------------------------------

  /** What each line contributes, in file order. */
  function Entries(lines: seq<string>): (r: seq<Option<(string, string)>>)
    ensures |r| == |lines|
    ensures forall l :: 0 <= l < |lines| ==> r[l] == ParseLine(lines[l])
  {
    seq(|lines|, l requires 0 <= l < |lines| => ParseLine(lines[l]))
  }

  /** One line's contribution applied to the array: self::$config[$key] = $value. */
  function Assign(config: map<string, string>, entry: Option<(string, string)>): map<string, string>
  {
    match entry
    case None => config
    case Some((k, v)) => config[k := v]
  }

  /** The contributions applied first to last. */
  function Fold(config: map<string, string>, entries: seq<Option<(string, string)>>): map<string, string>
  {
    if entries == [] then config else Assign(Fold(config, entries[..|entries| - 1]), entries[|entries| - 1])
  }

  /** The array after loading the lines on top of `config`. */
  function Parsed(config: map<string, string>, lines: seq<string>): map<string, string>
  {
    Fold(config, Entries(lines))
  }

  /** Whether a contribution sets the key. */
  predicate SetsKey(entry: Option<(string, string)>, key: string)
  {
    entry.Some? && entry.value.0 == key
  }

  lemma {:induction false} LastEntryWins(config: map<string, string>, entries: seq<Option<(string, string)>>, j: nat, key: string, value: string)
    requires j < |entries| && entries[j] == Some((key, value))
    requires forall l :: j < l < |entries| ==> !SetsKey(entries[l], key)
    ensures key in Fold(config, entries) && Fold(config, entries)[key] == value
  {
    var init := entries[..|entries| - 1];
    if j < |entries| - 1 {
      assert init[j] == entries[j];
      assert forall l :: j < l < |init| ==> init[l] == entries[l];
      LastEntryWins(config, init, j, key, value);
    }
  }

  /** One more contribution. */
  lemma FoldStep(config: map<string, string>, entries: seq<Option<(string, string)>>, i: nat)
    requires i < |entries|
    ensures Fold(config, entries[..i + 1]) == Assign(Fold(config, entries[..i]), entries[i])
  {
    PrefixStep(entries, i);
  }

  /** A key's value is the one on the last line that sets it. */
  lemma LastLineWins(config: map<string, string>, lines: seq<string>, j: nat, key: string, value: string)
    requires j < |lines| && ParseLine(lines[j]) == Some((key, value))
    requires forall l :: j < l < |lines| ==> !SetsKey(ParseLine(lines[l]), key)
    ensures key in Parsed(config, lines) && Parsed(config, lines)[key] == value
  {
    LastEntryWins(config, Entries(lines), j, key, value);
  }

  lemma {:induction false} UnsetEntryUnchanged(config: map<string, string>, entries: seq<Option<(string, string)>>, key: string)
    requires forall l :: 0 <= l < |entries| ==> !SetsKey(entries[l], key)
    ensures key in Fold(config, entries) <==> key in config
    ensures key in config ==> Fold(config, entries)[key] == config[key]
  {
    if entries != [] {
      var init := entries[..|entries| - 1];
      assert forall l :: 0 <= l < |init| ==> init[l] == entries[l];
      UnsetEntryUnchanged(config, init, key);
    }
  }

  /** A key no line sets keeps the value it had before the load, or stays absent. */
  lemma UnsetKeyUnchanged(config: map<string, string>, lines: seq<string>, key: string)
    requires forall l :: 0 <= l < |lines| ==> !SetsKey(ParseLine(lines[l]), key)
    ensures key in Parsed(config, lines) <==> key in config
    ensures key in config ==> Parsed(config, lines)[key] == config[key]
  {
    UnsetEntryUnchanged(config, Entries(lines), key);
  }

  /** A contribution with an empty key: putenv("=value") rejects it with a ValueError. */
  predicate EmptyKey(entry: Option<(string, string)>)
  {
    entry.Some? && entry.value.0 == ""
  }

  /** The position of the first contribution with an empty key, or the length when there is none. */
  function FirstEmptyKey(entries: seq<Option<(string, string)>>): (k: nat)
    ensures k <= |entries|
    ensures forall l :: 0 <= l < k ==> !EmptyKey(entries[l])
    ensures k < |entries| ==> EmptyKey(entries[k])
  {
    if entries == [] then 0
    else if EmptyKey(entries[0]) then 0
    else 1 + FirstEmptyKey(entries[1..])
  }

  /** The message of the ValueError putenv throws for an empty name. */
  const PutenvError: string := "putenv(): Argument #1 ($assignment) must have a valid syntax"

  // ---------------------------------------------------------------------
  // load
  // ---------------------------------------------------------------------

  /** The static state: the key/value array, the process environment fed by putenv, and the loaded flag. */
  class Config {
    var config: map<string, string>
    var env: map<string, string>
    var loaded: bool

    constructor(environment: map<string, string>)
      ensures config == map[] && env == environment && !loaded
    {
      config := map[];
      env := environment;
      loaded := false;
    }

    /**
     * load: a no-op once loaded; a missing file throws and changes nothing;
     * otherwise every line is applied to the array and to the environment
     * and the flag is set. A line whose key trims to "" is stored in the
     * array, then putenv throws a ValueError: the load stops there, the
     * environment holds only the lines before it, and the flag stays unset.
     */
    method Load(envPath: string, fileExists: bool, lines: seq<string>) returns (error: Option<string>)
      modifies this
      ensures old(loaded) ==> error.None? && config == old(config) && env == old(env) && loaded
      ensures !old(loaded) && !fileExists ==>
        error == Some("File configurazione non trovato: " + envPath)
        && config == old(config) && env == old(env) && !loaded
      ensures !old(loaded) && fileExists && FirstEmptyKey(Entries(lines)) == |lines| ==>
        error.None? && config == Parsed(old(config), lines) && env == Parsed(old(env), lines) && loaded
      ensures !old(loaded) && fileExists && FirstEmptyKey(Entries(lines)) < |lines| ==>
        var k := FirstEmptyKey(Entries(lines));
        && error == Some(PutenvError)
        && config == Fold(old(config), Entries(lines)[..k + 1])
        && env == Fold(old(env), Entries(lines)[..k])
        && !loaded
    {
      if loaded {
        return None;
      }
      if !fileExists {
        return Some("File configurazione non trovato: " + envPath);
      }
      ghost var entries := Entries(lines);
      ghost var k := FirstEmptyKey(entries);
      var i := 0;
      while i < |lines|
        invariant 0 <= i <= |lines| && i <= k
        invariant config == Fold(old(config), entries[..i])
        invariant env == Fold(old(env), entries[..i])
        invariant !loaded
      {
        FoldStep(old(config), entries, i);
        FoldStep(old(env), entries, i);
        var entry := ParseLine(lines[i]);
        assert entry == entries[i];
        config := Assign(config, entry);
        if entry.Some? && entry.value.0 == "" {
          assert i == k;
          return Some(PutenvError);
        }
        env := Assign(env, entry);
        i := i + 1;
      }
      assert entries[..i] == entries;
      loaded := true;
      return None;
    }
  }

  // ---------------------------------------------------------------------
  // get, getInt, validate (over the loaded array)
  // ---------------------------------------------------------------------

  /** PHP's empty() on a string: "" and "0". */
  predicate IsEmptyValue(v: string)
  {
    v == "" || v == "0"
  }

  /**
   * get: a missing key throws when required with no default, and otherwise
   * gives the default; a present value PHP deems empty throws when required;
   * any other present value is returned.
   */
  function Get(config: map<string, string>, key: string, default: Option<string>, required: bool): (r: Result<Option<string>>)
    ensures r.Err? <==> (key !in config && required && default.None?) || (key in config && required && IsEmptyValue(config[key]))
    ensures r.Err? && key !in config ==> r.message == "Configurazione mancante: " + key
    ensures r.Err? && key in config ==> r.message == "Configurazione vuota: " + key
    ensures r.Ok? && key !in config ==> r.value == default
    ensures r.Ok? && key in config ==> r.value == Some(config[key])
  {
    if key !in config then
      if required && default.None? then Err("Configurazione mancante: " + key) else Ok(default)
    else if IsEmptyValue(config[key]) && required then Err("Configurazione vuota: " + key)
    else Ok(Some(config[key]))
  }

  /** After a load, get returns what the last line setting the key said, unless that is empty. */
  lemma GetAfterLoad(config: map<string, string>, lines: seq<string>, j: nat, key: string, value: string, required: bool)
    requires j < |lines| && ParseLine(lines[j]) == Some((key, value)) && !IsEmptyValue(value)
    requires forall l :: j < l < |lines| ==> !SetsKey(ParseLine(lines[l]), key)
    ensures Get(Parsed(config, lines), key, None, required) == Ok(Some(value))
  {
    LastLineWins(config, lines, j, key, value);
  }

  /**
   * getInt: get with the default cast to string, so a missing default
   * becomes "" and never throws; the value is then cast with (int).
   */
  function GetInt(config: map<string, string>, key: string, default: Option<int>, required: bool): (r: Result<Option<int>>)
    ensures r.Ok? ==> r.value.Some?
    ensures r.Err? <==> key in config && required && IsEmptyValue(config[key])
  {
    var text := if default.Some? then IntToString(default.value) else "";
    match Get(config, key, Some(text), required)
    case Err(message) => Err(message)
    case Ok(v) => Ok(Some(StrToInt(v.value)))
  }

  /** A missing key gives the default, and 0 when there is none, even when required. */
  lemma GetIntMissing(config: map<string, string>, key: string, default: Option<int>, required: bool)
    requires key !in config
    requires default.Some? ==> InIntRange(default.value)
    ensures GetInt(config, key, default, required) == Ok(Some(if default.Some? then default.value else 0))
  {
    if default.Some? {
      IntToStringRoundTrip(default.value);
    } else {
      assert StrToInt("") == 0 by {
        assert ""[0..] == "";
      }
    }
  }

  /** A present value is cast with (int), unless it is empty and required. */
  lemma GetIntPresent(config: map<string, string>, key: string, default: Option<int>, required: bool)
    requires key in config && !(required && IsEmptyValue(config[key]))
    ensures GetInt(config, key, default, required) == Ok(Some(StrToInt(config[key])))
  {
  }

  /** validate's keys, in the order it checks them. */
  const RequiredKeys: seq<string> := ["DB2_HOST", "DB2_USER", "MYSQL_HOST", "MYSQL_USER"]

  /** empty(self::get($key, required: false)): missing, "" or "0". */
  predicate Unset(config: map<string, string>, key: string)
  {
    key !in config || IsEmptyValue(config[key])
  }

  function Message(key: string): string
  {
    key + " non configurato"
  }

  /** The message for one key, if it is unset. */
  function MessageIfUnset(config: map<string, string>, key: string): seq<string>
  {
    if Unset(config, key) then [Message(key)] else []
  }

  /** One message per unset key, in the order of the keys. */
  function Messages(config: map<string, string>, keys: seq<string>): (r: seq<string>)
    ensures |r| <= |keys|
  {
    if keys == [] then [] else MessageIfUnset(config, keys[0]) + Messages(config, keys[1..])
  }

  /** A key's message is reported exactly when that key is unset. */
  lemma {:induction false} MessagesExact(config: map<string, string>, keys: seq<string>, key: string)
    ensures Message(key) in Messages(config, keys) <==> key in keys && Unset(config, key)
  {
    if keys != [] {
      MessagesExact(config, keys[1..], key);
      MessageInjective(keys[0], key);
      assert key in keys <==> key == keys[0] || key in keys[1..];
    }
  }

  lemma MessageInjective(a: string, b: string)
    ensures Message(a) == Message(b) <==> a == b
  {
    if Message(a) == Message(b) {
      assert a == Message(a)[..|a|];
    }
  }

  /** No message at all exactly when every key is set. */
  lemma {:induction false} MessagesNone(config: map<string, string>, keys: seq<string>)
    ensures Messages(config, keys) == [] <==> forall k :: k in keys ==> !Unset(config, k)
  {
    if keys != [] {
      MessagesNone(config, keys[1..]);
      assert forall k :: k in keys <==> k == keys[0] || k in keys[1..];
    }
  }

  /** validate reports nothing exactly when the four keys are all set to non-empty values. */
  lemma ValidateEmptyIffConfigured(config: map<string, string>)
    ensures Messages(config, RequiredKeys) == [] <==> forall k :: k in RequiredKeys ==> !Unset(config, k)
  {
    MessagesNone(config, RequiredKeys);
  }

  /** The four checks of validate, one after another. */
  lemma MessagesOfRequired(config: map<string, string>)
    ensures Messages(config, RequiredKeys)
      == MessageIfUnset(config, "DB2_HOST") + MessageIfUnset(config, "DB2_USER")
       + MessageIfUnset(config, "MYSQL_HOST") + MessageIfUnset(config, "MYSQL_USER")
  {
    var k0 := RequiredKeys;
    var k1 := ["DB2_USER", "MYSQL_HOST", "MYSQL_USER"];
    var k2 := ["MYSQL_HOST", "MYSQL_USER"];
    var k3 := ["MYSQL_USER"];
    assert k0[1..] == k1 && k1[1..] == k2 && k2[1..] == k3 && k3[1..] == [];
    assert Messages(config, k3) == MessageIfUnset(config, "MYSQL_USER") + Messages(config, []);
    assert Messages(config, k2) == MessageIfUnset(config, "MYSQL_HOST") + Messages(config, k3);
    assert Messages(config, k1) == MessageIfUnset(config, "DB2_USER") + Messages(config, k2);
    assert Messages(config, k0) == MessageIfUnset(config, "DB2_HOST") + Messages(config, k1);
  }

  /** validate: checks the four keys in order, appending a message for each unset one. */
  method Validate(config: map<string, string>) returns (errors: seq<string>)
    ensures errors == Messages(config, RequiredKeys)
  {
    errors := [];
    if IsUnsetValue(Get(config, "DB2_HOST", None, false)) {
      errors := errors + [Message("DB2_HOST")];
    }
    if IsUnsetValue(Get(config, "DB2_USER", None, false)) {
      errors := errors + [Message("DB2_USER")];
    }
    if IsUnsetValue(Get(config, "MYSQL_HOST", None, false)) {
      errors := errors + [Message("MYSQL_HOST")];
    }
    if IsUnsetValue(Get(config, "MYSQL_USER", None, false)) {
      errors := errors + [Message("MYSQL_USER")];
    }
    MessagesOfRequired(config);
  }

  /** empty() of what a non-required get returned: null, "" or "0". */
  predicate IsUnsetValue(r: Result<Option<string>>)
  {
    r.Ok? && (r.value.None? || IsEmptyValue(r.value.value))
  }
}
