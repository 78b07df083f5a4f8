/** Severity of a log record: taken from a field of the record, or recovered from the
    words of its message. Codes are those of section 6.2.1 of RFC 5424. */
module SyslogSeverity {
  import opened Wrappers

  const UNKNOWN := 8
  const CORR_TOKEN_COUNT := 10

  const NAMES := ["emergency", "alert", "critical", "error", "warning", "notice", "info", "debug"]

  datatype EventSeverity = Unknown | Debug | Info | Warning | Critical

  /** The severity table of the plugin; an index outside it crashes. */
  function ToEventSeverity(rs: int): (r: Option<EventSeverity>)
    ensures r == Some(Critical) <==> 0 <= rs <= 3
    ensures r == Some(Warning) <==> rs == 4
    ensures r == Some(Info) <==> 5 <= rs <= 6
    ensures r == Some(Debug) <==> rs == 7
    ensures r == Some(Unknown) <==> rs == 8
  {
    var table := [Critical, Critical, Critical, Critical, Warning, Info, Info, Debug, Unknown];
    if 0 <= rs < |table| then Some(table[rs]) else None
  }

  function Rank(s: EventSeverity): (r: nat) {
    match s
    case Unknown => 0
    case Debug => 1
    case Info => 2
    case Warning => 3
    case Critical => 4
  }

  // ---------- Strings ----------

  predicate OccursAt(s: string, name: string, i: nat) {
    i + |name| <= |s| && s[i..i + |name|] == name
  }

  predicate Contains(s: string, name: string) {
    exists i | 0 <= i <= |s| :: OccursAt(s, name, i)
  }

  /** Lower-casing works rune by rune. */
  function ToLower(lower: char -> char, s: string): (r: string)
    ensures |r| == |s|
  {
    seq(|s|, i requires 0 <= i < |s| => lower(s[i]))
  }

  /** No other character becomes a space, and a space stays one. */
  ghost predicate KeepsSpaces(lower: char -> char) {
    forall c: char :: lower(c) == ' ' <==> c == ' '
  }

  function IndexOfSpace(s: string): (i: nat)
    ensures i <= |s|
    ensures forall j | 0 <= j < i :: s[j] != ' '
    ensures i < |s| ==> s[i] == ' '
  {
    if s == "" || s[0] == ' ' then 0 else 1 + IndexOfSpace(s[1..])
  }

  /** At most n tokens; the last one keeps the rest of the string, spaces included. */
  function SplitN(s: string, n: nat): (tokens: seq<string>)
    requires n > 0
    ensures 0 < |tokens| <= n
    decreases n
  {
    var i := IndexOfSpace(s);
    if n == 1 || i == |s| then [s] else [s[..i]] + SplitN(s[i + 1..], n - 1)
  }

  lemma OccurrenceHasNoSpace(s: string, name: string, i: nat)
    requires OccursAt(s, name, i) && ' ' !in name
    ensures forall k | i <= k < i + |name| :: s[k] != ' '
  {
    forall k | i <= k < i + |name| ensures s[k] != ' ' {
      assert s[k] == name[k - i];
    }
  }

  /** A name without spaces occurs in a string cut at a space exactly when it occurs in a part. */
  lemma ContainsAcrossSpace(s: string, name: string, k: nat)
    requires k < |s| && s[k] == ' ' && ' ' !in name && name != ""
    ensures Contains(s, name) <==> Contains(s[..k], name) || Contains(s[k + 1..], name)
  {
    if Contains(s, name) {
      var i :| 0 <= i <= |s| && OccursAt(s, name, i);
      OccurrenceHasNoSpace(s, name, i);
      if i < k {
        assert s[..k][i..i + |name|] == name;
        assert OccursAt(s[..k], name, i);
      } else {
        assert s[k + 1..][i - k - 1..i - k - 1 + |name|] == name;
        assert OccursAt(s[k + 1..], name, i - k - 1);
      }
    }
    if Contains(s[..k], name) {
      var i :| 0 <= i <= k && OccursAt(s[..k], name, i);
      assert s[i..i + |name|] == name;
      assert OccursAt(s, name, i);
    }
    if Contains(s[k + 1..], name) {
      var i :| 0 <= i <= |s[k + 1..]| && OccursAt(s[k + 1..], name, i);
      assert s[k + 1 + i..k + 1 + i + |name|] == name;
      assert OccursAt(s, name, k + 1 + i);
    }
  }

  ghost predicate InSomeToken(lower: char -> char, tokens: seq<string>, name: string) {
    exists t <- tokens :: Contains(ToLower(lower, t), name)
  }

  /** The token limit never changes the answer: a name is in some token of a message exactly
      when it is in the message, however many tokens are allowed. */
  lemma {:induction false} TokenScanIsWholeSearch(lower: char -> char, msg: string, n: nat, name: string)
    requires KeepsSpaces(lower) && n > 0 && name != "" && ' ' !in name
    ensures InSomeToken(lower, SplitN(msg, n), name) <==> Contains(ToLower(lower, msg), name)
    decreases n
  {
    var k := IndexOfSpace(msg);
    if n == 1 || k == |msg| {
      assert SplitN(msg, n) == [msg];
    } else {
      var first, rest := msg[..k], msg[k + 1..];
      var tokens := SplitN(rest, n - 1);
      TokenScanIsWholeSearch(lower, rest, n - 1, name);
      ContainsAcrossSpace(ToLower(lower, msg), name, k);
      assert ToLower(lower, msg)[..k] == ToLower(lower, first);
      assert ToLower(lower, msg)[k + 1..] == ToLower(lower, rest);
      assert SplitN(msg, n) == [first] + tokens;
      assert first in [first] + tokens;
      assert forall t <- tokens :: t in [first] + tokens;
    }
  }

  // ---------- Severity from the message ----------

  ghost predicate Names(lower: char -> char, msg: string, i: nat)
    requires i < |NAMES|
  {
    Contains(ToLower(lower, msg), NAMES[i])
  }

  /** The most severe level whose name occurs anywhere in the message. */
  ghost predicate IsLeastNamed(lower: char -> char, msg: string, i: int) {
    && 0 <= i < |NAMES|
    && Names(lower, msg, i)
    && forall j | 0 <= j < i :: !Names(lower, msg, j)
  }

  lemma ContainsIff(s: string, name: string)
    ensures Contains(s, name) <==> exists before, after :: s == before + name + after
  {
    if Contains(s, name) {
      var i :| 0 <= i <= |s| && OccursAt(s, name, i);
      assert s == s[..i] + name + s[i + |name|..];
    }
    if before, after :| s == before + name + after {
      assert OccursAt(s, name, |before|);
    }
  }

  /** The recovered severity spelled out: the code is the position of the first of these words
      that is anywhere in the message, once every character of it is in lower case. */
  lemma RecoveredCode(lower: char -> char, msg: string, s: int)
    ensures var words := ["emergency", "alert", "critical", "error", "warning", "notice", "info", "debug"];
            var text := seq(|msg|, i requires 0 <= i < |msg| => lower(msg[i]));
            IsLeastNamed(lower, msg, s) <==>
              && 0 <= s <= 7
              && (exists before, after :: text == before + words[s] + after)
              && forall j | 0 <= j < s :: !exists before, after :: text == before + words[j] + after
  {
    hide Contains;
    var text := seq(|msg|, i requires 0 <= i < |msg| => lower(msg[i]));
    assert ToLower(lower, msg) == text;
    forall j | 0 <= j <= 7
      ensures Names(lower, msg, j) <==> exists before, after :: text == before + NAMES[j] + after
    {
      ContainsIff(text, NAMES[j]);
    }
  }

  /** What a message makes of an event, whatever else it says. */
  lemma RecoveredEvent(lower: char -> char, msg: string, s: int)
    requires IsLeastNamed(lower, msg, s)
    ensures var text, event := ToLower(lower, msg), ToEventSeverity(s);
            && (event == Some(Critical) <==>
                 || Contains(text, "emergency") || Contains(text, "alert") || Contains(text, "critical")
                 || Contains(text, "error"))
            && (event == Some(Warning) <==> event != Some(Critical) && Contains(text, "warning"))
            && (event == Some(Info) <==>
                 && event != Some(Critical) && event != Some(Warning)
                 && (Contains(text, "notice") || Contains(text, "info")))
            && event.Some? && event.value in {Critical, Warning, Info, Debug}
  {
    hide Contains, ToLower;
    forall j | 0 <= j < 8 ensures Names(lower, msg, j) == Contains(ToLower(lower, msg), NAMES[j]) {
    }
    assert Names(lower, msg, s);
    assert NAMES[0] == "emergency" && NAMES[1] == "alert" && NAMES[2] == "critical" && NAMES[3] == "error";
    assert NAMES[4] == "warning" && NAMES[5] == "notice" && NAMES[6] == "info" && NAMES[7] == "debug";
  }

  lemma NamesHaveNoSpaces(i: nat)
    requires i < |NAMES|
    ensures NAMES[i] != "" && ' ' !in NAMES[i]
  {
  }

  lemma EmptyHasNoName(lower: char -> char, name: string)
    requires name != ""
    ensures !Contains(ToLower(lower, ""), name)
  {
  }

  /** The nested scan over levels and tokens; rs is what the severity was before. */
  method FromMessage(lower: char -> char, rs: int, msg: string) returns (rs': int, found: bool)
    requires KeepsSpaces(lower)
    ensures found <==> exists i | 0 <= i < |NAMES| :: Names(lower, msg, i)
    ensures found ==> IsLeastNamed(lower, msg, rs')
    ensures !found ==> rs' == rs
  {
    hide ToLower, SplitN, Contains;
    var msgTokens := SplitN(msg, CORR_TOKEN_COUNT);
    for i := 0 to |NAMES|
      invariant forall j | 0 <= j < i :: !Names(lower, msg, j)
    {
      NamesHaveNoSpaces(i);
      TokenScanIsWholeSearch(lower, msg, CORR_TOKEN_COUNT, NAMES[i]);
      for tid := 0 to |msgTokens|
        invariant forall k | 0 <= k < tid :: !Contains(ToLower(lower, msgTokens[k]), NAMES[i])
      {
        EmptyHasNoName(lower, NAMES[i]);
        if msgTokens[tid] == "" {
          continue;
        }
        if Contains(ToLower(lower, msgTokens[tid]), NAMES[i]) {
          assert msgTokens[tid] in msgTokens;
          assert Names(lower, msg, i);
          return i, true;
        }
      }
    }
    return rs, false;
  }

  // ---------- Severity of a record ----------

  datatype Value = Text(text: string) | Other

  datatype LogConfig = LogConfig(messageField: string, severityField: string, correctSeverity: bool)

  function TextAt(log: map<string, Value>, field: string): (r: Option<string>) {
    if field in log && log[field].Text? then Some(log[field].text) else None
  }

  /** The severity field, if it is a number in text form. `atoi` stands for the library parser. */
  function DeclaredSeverity(atoi: string -> Option<int>, log: map<string, Value>, config: LogConfig): (r: int)
    ensures config.severityField in log && log[config.severityField].Text?
            ==> var n := atoi(log[config.severityField].text); r == if n.Some? then n.value else 8
    ensures r != 8 ==> config.severityField in log && log[config.severityField].Text?
  {
    match TextAt(log, config.severityField)
    case None => UNKNOWN
    case Some(t) => if atoi(t).Some? then atoi(t).value else UNKNOWN
  }

  /** `None` is the crash of the type assertion on a message that is not text. The log handler, its
      only caller, turns such records away before it asks for their severity. */
  method GetSeverityFromLog(lower: char -> char, atoi: string -> Option<int>, log: map<string, Value>,
      config: LogConfig)
    returns (severity: Option<int>)
    requires KeepsSpaces(lower)
    ensures severity.None? <==>
              config.correctSeverity && (config.messageField in log ==> !log[config.messageField].Text?)
    ensures severity.Some? ==> IsSeverityOf(lower, atoi, log, config, severity.value)
  {
    var s := UNKNOWN;
    var field := TextAt(log, config.severityField);
    if field.Some? {
      var n := atoi(field.value);
      if n.Some? {
        s := n.value;
      }
    }
    if config.correctSeverity {
      var msg := TextAt(log, config.messageField);
      if msg.None? {
        return None;
      }
      var corrected, _ := FromMessage(lower, s, msg.value);
      s := corrected;
    }
    return Some(s);
  }

  ghost predicate IsSeverityOf(lower: char -> char, atoi: string -> Option<int>, log: map<string, Value>,
      config: LogConfig, s: int)
  {
    var msg := TextAt(log, config.messageField);
    if config.correctSeverity && msg.Some? && exists i | 0 <= i < |NAMES| :: Names(lower, msg.value, i)
    then IsLeastNamed(lower, msg.value, s)
    else s == DeclaredSeverity(atoi, log, config)
  }

  /** A severity recovered from the message is never less severe than any level the message
      names, also after the translation to event severities. */
  lemma CorrectedIsMostSevere(lower: char -> char, msg: string, s: int, j: nat)
    requires IsLeastNamed(lower, msg, s) && j < |NAMES| && Names(lower, msg, j)
    ensures ToEventSeverity(s).Some? && ToEventSeverity(j).Some?
    ensures Rank(ToEventSeverity(s).value) >= Rank(ToEventSeverity(j).value)
  {
  }

  /** The translation crashes exactly when the record declares a number outside 0..8 and the
      message is not consulted or names no level. */
  lemma TranslationSucceedsIff(lower: char -> char, atoi: string -> Option<int>, log: map<string, Value>,
      config: LogConfig, s: int)
    requires IsSeverityOf(lower, atoi, log, config, s)
    ensures ToEventSeverity(s).Some? <==>
              var msg := TextAt(log, config.messageField);
              || 0 <= DeclaredSeverity(atoi, log, config) <= UNKNOWN
              || (config.correctSeverity && msg.Some? && exists i | 0 <= i < |NAMES| :: Names(lower, msg.value, i))
  {
  }

  /** Such a record: its severity field is the number 9 in text form, and messages are not consulted. */
  lemma OutOfRangeExample(lower: char -> char, atoi: string -> Option<int>)
    requires atoi("9") == Some(9)
    ensures var log, config := map["severity" := Text("9")], LogConfig("message", "severity", false);
            IsSeverityOf(lower, atoi, log, config, 9) && ToEventSeverity(9).None?
  {
  }
}
