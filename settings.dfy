// The document settings: the configuration defaults of New and the two lookups Get and
// GetOption (org/document.go).
module Settings {
  import opened Strs

  /** The parts of the configuration that the parser reads. */
  datatype Configuration = Configuration(autoLink: bool, maxEmphasisNewLines: int, defaultSettings: map<string, string>)

  const DefaultOptions := "toc:t <:t e:t f:t pri:t todo:t tags:t title:t ealb:nil"

  /** New: auto links on, one newline allowed inside emphasis, and the three default settings. */
  function New(): (c: Configuration)
    ensures c.autoLink && c.maxEmphasisNewLines == 1
    ensures c.defaultSettings.Keys == {"TODO", "EXCLUDE_TAGS", "OPTIONS"}
    ensures c.defaultSettings["TODO"] == "TODO | DONE" && c.defaultSettings["EXCLUDE_TAGS"] == "noexport"
    ensures c.defaultSettings["OPTIONS"] == DefaultOptions
  {
    Configuration(true, 1, map["TODO" := "TODO | DONE", "EXCLUDE_TAGS" := "noexport", "OPTIONS" := DefaultOptions])
  }

  /** A Go map read: the zero value "" for a missing key. */
  function Lookup(m: map<string, string>, key: string): string {
    if key in m then m[key] else ""
  }

  /** Get: the buffer setting wins over the default; a key in neither gives "". */
  function Get(buffer: map<string, string>, defaults: map<string, string>, key: string): (r: string)
    ensures key in buffer ==> r == buffer[key]
    ensures key !in buffer && key in defaults ==> r == defaults[key]
    ensures key !in buffer && key !in defaults ==> r == ""
  {
    if key in buffer then buffer[key] else if key in defaults then defaults[key] else ""
  }

  /** The inner loop of GetOption: the text after "key:" in the first field that starts with it. */
  function OptionIn(fields: seq<string>, key: string): (r: string)
    decreases |fields|
  {
    if |fields| == 0 then ""
    else if HasPrefix(fields[0], key + ":") then fields[0][|key| + 1..]
    else OptionIn(fields[1..], key)
  }

  /** OptionIn answers from the first field with the prefix and ignores every later one. */
  lemma {:induction false} OptionInFirst(fields: seq<string>, key: string, i: nat)
    requires i < |fields| && HasPrefix(fields[i], key + ":")
    requires forall j :: 0 <= j < i ==> !HasPrefix(fields[j], key + ":")
    ensures OptionIn(fields, key) == fields[i][|key| + 1..]
    decreases i
  {
    if i > 0 {
      assert forall j :: 0 <= j < i - 1 ==> fields[1..][j] == fields[j + 1];
      OptionInFirst(fields[1..], key, i - 1);
    }
  }

  /** With no field carrying the prefix OptionIn is "". */
  lemma {:induction false} OptionInNone(fields: seq<string>, key: string)
    requires forall j :: 0 <= j < |fields| ==> !HasPrefix(fields[j], key + ":")
    ensures OptionIn(fields, key) == ""
    decreases |fields|
  {
    if |fields| > 0 {
      assert forall j :: 0 <= j < |fields| - 1 ==> fields[1..][j] == fields[j + 1];
      OptionInNone(fields[1..], key);
    }
  }

  /** The value of an export option in one settings map, "" when it gives none. */
  function OptionOf(settings: map<string, string>, key: string): string {
    OptionIn(Fields(Lookup(settings, "OPTIONS")), key)
  }

  /**
   * GetOption: the buffer's OPTIONS first, the defaults next, "nil" when neither yields a
   * non-empty value (an option written as "key:" with nothing after it counts as absent).
   */
  function GetOption(buffer: map<string, string>, defaults: map<string, string>, key: string): (r: string)
    ensures r != ""
    ensures OptionOf(buffer, key) != "" ==> r == OptionOf(buffer, key)
    ensures OptionOf(buffer, key) == "" && OptionOf(defaults, key) != "" ==> r == OptionOf(defaults, key)
    ensures OptionOf(buffer, key) == "" && OptionOf(defaults, key) == "" ==> r == "nil"
  {
    var value := OptionOf(buffer, key);
    var value := if value == "" then OptionOf(defaults, key) else value;
    if value == "" then "nil" else value
  }

  /** A buffer without OPTIONS leaves every option to the defaults. */
  lemma GetOptionFromDefaults(buffer: map<string, string>, defaults: map<string, string>, key: string)
    requires "OPTIONS" !in buffer
    ensures GetOption(buffer, defaults, key) == GetOption(map[], defaults, key)
  {
    assert Fields("") == [];
  }
}
