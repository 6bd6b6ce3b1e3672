/** parse_field_defaults of givedefault.py: command-line entries of the form
    field_name=default_value turned into a dict of typed default values. */
module FieldDefaults {
  import opened PyValues

  /** field_string.split('=', 1) unpacked into a name and a value; None when
      there is no '=' and the unpacking raises ValueError. */
  function SplitEntry(entry: string): (r: Option<(string, string)>)
    ensures r.None? <==> '=' !in entry
    ensures r.Some? ==> entry == r.value.0 + "=" + r.value.1 && '=' !in r.value.0
  {
    match IndexOf(entry, '=')
    case None => None
    case Some(k) =>
      assert entry == entry[..k] + "=" + entry[k + 1..];
      Some((entry[..k], entry[k + 1..]))
  }

  /** Only the first '=' separates: the value keeps any further '='. */
  lemma SplitAtFirstEquals(name: string, value: string)
    requires '=' !in name
    ensures SplitEntry(name + "=" + value) == Some((name, value))
  {
    var entry := name + "=" + value;
    assert entry[|name|] == '=';
    var r := SplitEntry(entry).value;
    assert entry[..|name|] == name;
    assert r.0 == entry[..|name|] == name;
    assert r.1 == entry[|name| + 1..] == value;
  }

  /** The value stored for a default: int() if it accepts the text, else
      float(), else True/False for the words true/false in any case, else
      the text itself. */
  function Coerce(text: string): (v: Value)
    ensures ParseInt(text).Some? ==> v == Int(ParseInt(text).value)
    ensures ParseInt(text).None? && ParseFloat(text).Some? ==> v.Float? && v.x == ParseFloat(text).value
    ensures v.Bool? ==> ParseInt(text).None? && ParseFloat(text).None? && v.b == (Lower(text) == "true")
    ensures v.Str? ==> v.s == text
    ensures ParseInt(text).None? && ParseFloat(text).None? ==>
      (v.Bool? <==> Lower(text) in {"true", "false"}) && (!v.Bool? ==> v == Str(text))
  {
    match ParseInt(text)
    case Some(i) => Int(i)
    case None =>
      match ParseFloat(text)
      case Some(x) => Float(x, text)
      case None =>
        if Lower(text) == "true" then Bool(true)
        else if Lower(text) == "false" then Bool(false)
        else Str(text)
  }

  /** Every text int() accepts, float() accepts too, with the same value: the
      order of the attempts only decides the type, so "3" becomes 3 and not 3.0. */
  lemma IntTextIsFloatText(text: string)
    requires ParseInt(text).Some?
    ensures ParseFloat(text) == Some(ParseInt(text).value as real)
  {
    var t := Strip(text);
    var (sign, start) := SignOf(t);
    var n := DigitsFrom(t, start);
    assert t[start..start + n] == t[start..];
    assert t[|t| - 0..|t|] == [];
  }

  /** One entry's effect on the dict. */
  function Store(defaults: map<string, Value>, entry: string): map<string, Value> {
    match SplitEntry(entry)
    case None => defaults
    case Some((name, text)) => defaults[name := Coerce(text)]
  }

  /** The dict the loop builds: entries in order, a later name overriding an
      earlier one, malformed entries ignored. */
  function Defaults(entries: seq<string>): map<string, Value> {
    if entries == [] then map[]
    else Store(Defaults(entries[..|entries| - 1]), entries[|entries| - 1])
  }

  lemma DefaultsAppend(entries: seq<string>, entry: string)
    ensures Defaults(entries + [entry]) == Store(Defaults(entries), entry)
  {
    assert (entries + [entry])[..|entries|] == entries;
  }

  /** The entries that draw a warning. */
  function Malformed(entries: seq<string>): (r: seq<string>)
    ensures forall i :: 0 <= i < |r| ==> '=' !in r[i]
  {
    if entries == [] then []
    else
      var last := entries[|entries| - 1];
      Malformed(entries[..|entries| - 1]) + (if '=' in last then [] else [last])
  }

  /** The loop of parse_field_defaults; the warnings it prints are returned. */
  method ParseFieldDefaults(fieldStrings: seq<string>) returns (fieldDefaults: map<string, Value>, warnings: seq<string>)
    ensures fieldDefaults == Defaults(fieldStrings)
    ensures warnings == Malformed(fieldStrings)
  {
    fieldDefaults, warnings := map[], [];
    var i := 0;
    while i < |fieldStrings|
      invariant 0 <= i <= |fieldStrings|
      invariant fieldDefaults == Defaults(fieldStrings[..i])
      invariant warnings == Malformed(fieldStrings[..i])
    {
      assert fieldStrings[..i + 1][..i] == fieldStrings[..i];
      var fieldString := fieldStrings[i];
      match IndexOf(fieldString, '=') {
        case None =>
          warnings := warnings + [fieldString];
        case Some(k) =>
          var fieldName, defaultValue := fieldString[..k], fieldString[k + 1..];
          fieldDefaults := fieldDefaults[fieldName := Coerce(defaultValue)];
      }
      DefaultsAppend(fieldStrings[..i], fieldString);
      assert fieldStrings[..i + 1] == fieldStrings[..i] + [fieldString];
      i := i + 1;
    }
    assert fieldStrings[..i] == fieldStrings;
  }

  /** The text of the last well-formed entry for a name, if any. */
  function LastText(entries: seq<string>, name: string): Option<string> {
    if entries == [] then None
    else
      match SplitEntry(entries[|entries| - 1])
      case Some((n, text)) =>
        if n == name then Some(text) else LastText(entries[..|entries| - 1], name)
      case None => LastText(entries[..|entries| - 1], name)
  }

  /** A name is in the result exactly when some well-formed entry gives it, and
      its value is the coerced text of the last such entry. */
  lemma {:induction false} DefaultsLookup(entries: seq<string>, name: string)
    ensures name in Defaults(entries) <==> LastText(entries, name).Some?
    ensures name in Defaults(entries) ==> Defaults(entries)[name] == Coerce(LastText(entries, name).value)
  {
    if entries != [] {
      DefaultsLookup(entries[..|entries| - 1], name);
    }
  }

  /** The name an entry stores, if it is well formed. */
  function EntryName(entry: string): set<string> {
    if '=' in entry then {SplitEntry(entry).value.0} else {}
  }

  /** The names of the well-formed entries. */
  function EntryNames(entries: seq<string>): set<string> {
    set i | 0 <= i < |entries| && '=' in entries[i] :: SplitEntry(entries[i]).value.0
  }

  lemma StoreKeys(defaults: map<string, Value>, entry: string)
    ensures Store(defaults, entry).Keys == defaults.Keys + EntryName(entry)
  {
  }

  lemma EntryNamesAppend(prefix: seq<string>, last: string)
    ensures EntryNames(prefix + [last]) == EntryNames(prefix) + EntryName(last)
  {
    var entries := prefix + [last];
    forall n | n in EntryNames(entries) ensures n in EntryNames(prefix) + EntryName(last) {
      var i :| 0 <= i < |entries| && '=' in entries[i] && n == SplitEntry(entries[i]).value.0;
      if i < |prefix| {
        assert entries[i] == prefix[i];
      }
    }
    forall n | n in EntryNames(prefix) ensures n in EntryNames(entries) {
      var i :| 0 <= i < |prefix| && '=' in prefix[i] && n == SplitEntry(prefix[i]).value.0;
      assert entries[i] == prefix[i];
    }
    if '=' in last {
      assert entries[|prefix|] == last;
    }
  }

  /** The keys are exactly the names of the well-formed entries. */
  lemma {:induction false} DefaultsKeys(entries: seq<string>)
    ensures Defaults(entries).Keys == EntryNames(entries)
  {
    if entries != [] {
      var prefix := entries[..|entries| - 1];
      var last := entries[|entries| - 1];
      assert entries == prefix + [last];
      calc {
        Defaults(entries).Keys;
        Store(Defaults(prefix), last).Keys;
        { StoreKeys(Defaults(prefix), last); }
        Defaults(prefix).Keys + EntryName(last);
        { DefaultsKeys(prefix); }
        EntryNames(prefix) + EntryName(last);
        { EntryNamesAppend(prefix, last); }
        EntryNames(entries);
      }
    }
  }

  /** A malformed entry has no effect, wherever it stands: the entries after
      it are still processed. */
  lemma {:induction false} MalformedEntryIgnored(front: seq<string>, bad: string, back: seq<string>)
    requires '=' !in bad
    ensures Defaults(front + [bad] + back) == Defaults(front + back)
    decreases |back|
  {
    if back == [] {
      SnocShape(front + [bad], back);
      SnocShape(front, back);
      DefaultsAppend(front, bad);
    } else {
      var back' := back[..|back| - 1];
      MalformedEntryIgnored(front, bad, back');
      SnocShape(front + [bad], back);
      SnocShape(front, back);
      DefaultsAppend(front + [bad] + back', back[|back| - 1]);
      DefaultsAppend(front + back', back[|back| - 1]);
    }
  }

  lemma SnocShape(a: seq<string>, b: seq<string>)
    ensures b == [] ==> a + b == a
    ensures b != [] ==> a + b == (a + b[..|b| - 1]) + [b[|b| - 1]]
  {
    if b != [] {
      assert b == b[..|b| - 1] + [b[|b| - 1]];
    }
  }

  /** A later entry for the same name wins. */
  lemma LaterEntryOverrides(entries: seq<string>, name: string, text: string)
    requires '=' !in name
    ensures name in Defaults(entries + [name + "=" + text])
    ensures Defaults(entries + [name + "=" + text])[name] == Coerce(text)
  {
    SplitAtFirstEquals(name, text);
    DefaultsAppend(entries, name + "=" + text);
  }

  /** int() comes first: "3" is stored as the int 3. */
  lemma CoerceIntExample(three: string)
    requires three == "3"
    ensures Coerce(three) == Int(3)
  {
    assert Strip(three) == three;
    assert DigitsFrom(three, 0) == 1;
    assert DigitsValue(three) == 3;
  }

  /** A decimal text is stored as a float. */
  lemma CoerceFloatExample(half: string)
    requires half == "0.5"
    ensures Coerce(half).Float? && Coerce(half).x == 0.5
  {
    HalfParsesAsFloat(half);
  }

  lemma HalfParsesAsFloat(half: string)
    requires half == "0.5"
    ensures ParseInt(half).None? && ParseFloat(half) == Some(0.5)
  {
    assert Strip(half) == half;
    assert DigitsFrom(half, 0) == 1 && DigitsFrom(half, 2) == 1;
    assert DigitsValue(half[0..1]) == 0 && DigitsValue(half[2..3]) == 5;
  }

  /** The words true and false are recognised in any case. */
  lemma CoerceWordExample(word: string)
    requires word == "TRUE"
    ensures Coerce(word) == Bool(true)
  {
    assert Strip(word) == word;
    assert DigitsFrom(word, 0) == 0;
    assert Lower(word) == "true";
  }

  /** The word test does not strip blanks: " true" stays a string. */
  lemma CoercePaddedWordExample(padded: string)
    requires padded == " true"
    ensures Coerce(padded) == Str(padded)
  {
    assert IsSpace(padded[0]) && padded[1..] == "true";
    assert StripLeft("true") == "true" && StripRight("true") == "true";
    assert Strip(padded) == "true";
    assert DigitsFrom("true", 0) == 0;
    assert Lower(padded)[0] == ' ';
    assert Lower(padded) != "true" && Lower(padded) != "false";
  }
}
