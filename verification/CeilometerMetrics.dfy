/** The ceilometer metrics handler: one message carries a list of metrics, each published
    with a name and a list of labels built from its fields. */
module CeilometerMetrics {
  import opened MetricTypes
  import opened Wrappers

  datatype Metadata = Metadata(host: string, name: string, displayName: string, userMetadata: map<string, string>)

  datatype Metric = Metric(
    counterName: string, counterType: string, counterUnit: string, counterVolume: real,
    userID: string, userName: string, projectID: string, projectName: string,
    resourceID: string, timestamp: string, resourceMetadata: Metadata)

  datatype Message = Message(publisher: string, payload: seq<Metric>)

  // ---------- Names ----------

  /** strings.Split with a one-character separator. */
  function Split(s: string, sep: char): (shards: seq<string>)
    ensures |shards| >= 1
  {
    if s == "" then [""]
    else
      var rest := Split(s[1..], sep);
      if s[0] == sep then [""] + rest else [[s[0]] + rest[0]] + rest[1..]
  }

  function Join(parts: seq<string>, sep: string): (r: string) {
    if parts == [] then ""
    else if |parts| == 1 then parts[0]
    else parts[0] + sep + Join(parts[1..], sep)
  }

  function Replace(s: string, from: char, to: char): (r: string)
    ensures |r| == |s|
  {
    seq(|s|, i requires 0 <= i < |s| => if s[i] == from then to else s[i])
  }

  function GenName(shards: seq<string>): (r: string) {
    Join(["ceilometer"] + shards, "_")
  }

  /** A character in front of the first part is a character in front of the joined string. */
  lemma JoinPrepend(c: char, parts: seq<string>, sep: string)
    requires parts != []
    ensures Join([[c] + parts[0]] + parts[1..], sep) == [c] + Join(parts, sep)
  {
    assert ([[c] + parts[0]] + parts[1..])[1..] == parts[1..];
    if |parts| > 1 {
      assert [c] + parts[0] + sep + Join(parts[1..], sep) == [c] + (parts[0] + sep + Join(parts[1..], sep));
    }
  }

  lemma {:induction false} JoinSplit(s: string, sep: char, glue: char)
    ensures Join(Split(s, sep), [glue]) == Replace(s, sep, glue)
  {
    if s != "" {
      var rest := Split(s[1..], sep);
      JoinSplit(s[1..], sep, glue);
      assert Replace(s, sep, glue) == [if s[0] == sep then glue else s[0]] + Replace(s[1..], sep, glue);
      if s[0] == sep {
        assert ([""] + rest)[1..] == rest;
        assert Join([""] + rest, [glue]) == "" + [glue] + Join(rest, [glue]) == [glue] + Join(rest, [glue]);
      } else {
        hide Join, Replace;
        JoinPrepend(s[0], rest, [glue]);
      }
    }
  }

  /** A published name is the counter name with its dots turned into underscores. */
  lemma GenNameReplacesDots(counterName: string)
    ensures GenName(Split(counterName, '.')) == "ceilometer_" + Replace(counterName, '.', '_')
    ensures var name := GenName(Split(counterName, '.'));
            && |name| == 11 + |counterName|
            && forall k | 0 <= k < |counterName| ::
                 name[11 + k] == if counterName[k] == '.' then '_' else counterName[k]
    ensures Join(Split(counterName, '.'), ".") == counterName
  {
    JoinSplit(counterName, '.', '_');
    JoinSplit(counterName, '.', '.');
    var shards := Split(counterName, '.');
    assert (["ceilometer"] + shards)[1..] == shards;
    assert Replace(counterName, '.', '.') == counterName;
  }

  // ---------- Labels ----------

  type Label = (string, string)

  function Optional(key: string, value: string): (r: seq<Label>) {
    if value == "" then [] else [(key, value)]
  }

  /** Display name and name of a resource, joined by a colon when both are there. */
  function ResourceName(md: Metadata): (r: string) {
    if md.displayName != "" && md.name != "" then md.displayName + ":" + md.name
    else md.displayName + md.name
  }

  function FixedLabels(m: Metric, publisher: string, shards: seq<string>): (r: seq<Label>)
    requires |shards| >= 1
  {
    [ (shards[0], if |shards| > 2 then shards[2] else m.resourceID),
      ("publisher", publisher),
      ("type", if |shards| > 1 then shards[1] else shards[0]) ]
  }

  /** The optional labels in their order, present or not. */
  function Candidates(m: Metric): (r: seq<Label>) {
    [ ("counter", m.counterName), ("project", m.projectID), ("project_name", m.projectName),
      ("user", m.userID), ("user_name", m.userName), ("unit", m.counterUnit), ("resource", m.resourceID),
      ("vm_instance", m.resourceMetadata.host), ("resource_name", ResourceName(m.resourceMetadata)) ]
  }

  /** The labels of ls that have a value. */
  function NonEmpty(ls: seq<Label>): (r: seq<Label>) {
    if ls == [] then []
    else NonEmpty(ls[..|ls| - 1]) + Optional(ls[|ls| - 1].0, ls[|ls| - 1].1)
  }

  /** The labels of a metric without the user metadata. */
  function Labels(m: Metric, publisher: string, shards: seq<string>): (r: seq<Label>)
    requires |shards| >= 1
  {
    FixedLabels(m, publisher, shards) + NonEmpty(Candidates(m))
  }

  lemma {:induction false} NonEmptyBounds(ls: seq<Label>)
    ensures |NonEmpty(ls)| <= |ls|
    ensures forall l <- NonEmpty(ls) :: l in ls && l.1 != ""
    ensures forall l <- ls :: l.1 != "" ==> l in NonEmpty(ls)
  {
    if ls != [] {
      NonEmptyBounds(ls[..|ls| - 1]);
    }
  }

  /** The value of an optional label, by its name; the names and fields are those of the source. */
  ghost predicate IsField(m: Metric, key: string, value: string) {
    var md := m.resourceMetadata;
    || (key == "counter" && value == m.counterName)
    || (key == "project" && value == m.projectID)
    || (key == "project_name" && value == m.projectName)
    || (key == "user" && value == m.userID)
    || (key == "user_name" && value == m.userName)
    || (key == "unit" && value == m.counterUnit)
    || (key == "resource" && value == m.resourceID)
    || (key == "vm_instance" && value == md.host)
    || (key == "resource_name" && md.name == "" && value == md.displayName)
    || (key == "resource_name" && md.displayName == "" && value == md.name)
    || (key == "resource_name" && md.displayName != "" && md.name != "" && value == md.displayName + ":" + md.name)
  }

  lemma CandidateIff(m: Metric, key: string, value: string)
    requires value != ""
    ensures (key, value) in Candidates(m) <==> IsField(m, key, value)
  {
    var md := m.resourceMetadata;
    assert "" + md.name == md.name && md.displayName + "" == md.displayName;
    assert (key, value) in Candidates(m) <==> exists i | 0 <= i < 9 :: Candidates(m)[i] == (key, value);
  }

  lemma {:induction false} AllKept(ls: seq<Label>)
    requires |NonEmpty(ls)| == |ls|
    ensures NonEmpty(ls) == ls
  {
    if ls != [] {
      NonEmptyBounds(ls[..|ls| - 1]);
      AllKept(ls[..|ls| - 1]);
      assert ls == ls[..|ls| - 1] + [ls[|ls| - 1]];
    }
  }

  /** An optional label is there exactly if its field has a value, and under the name of the field. */
  lemma OptionalLabels(m: Metric, key: string, value: string)
    ensures (key, value) in NonEmpty(Candidates(m)) <==> value != "" && IsField(m, key, value)
  {
    hide NonEmpty, IsField;
    NonEmptyBounds(Candidates(m));
    if value != "" {
      CandidateIff(m, key, value);
    }
    hide Candidates;
  }

  /** When all optional fields have a value, this is the order of their labels. */
  lemma LabelOrder(m: Metric)
    requires |NonEmpty(Candidates(m))| == 9
    ensures var labels := NonEmpty(Candidates(m));
            var names := ["counter", "project", "project_name", "user", "user_name", "unit", "resource", "vm_instance",
                          "resource_name"];
            forall i | 0 <= i < 9 :: labels[i].0 == names[i]
  {
    AllKept(Candidates(m));
    hide NonEmpty;
  }

  /** The first three labels of a counter name with one, two, or at least three parts. */
  lemma FirstLabels(m: Metric, publisher: string, shards: seq<string>)
    requires |shards| >= 1
    ensures var ls := Labels(m, publisher, shards);
            && |ls| >= 3 && ls[1] == ("publisher", publisher) && ls[3..] == NonEmpty(Candidates(m))
            && (|shards| == 1 ==> ls[0] == (shards[0], m.resourceID) && ls[2] == ("type", shards[0]))
            && (|shards| == 2 ==> ls[0] == (shards[0], m.resourceID) && ls[2] == ("type", shards[1]))
            && (|shards| >= 3 ==> ls[0] == (shards[0], shards[2]) && ls[2] == ("type", shards[1]))
  {
    hide Candidates, NonEmpty;
  }

  function Zip(keys: seq<string>, vals: seq<string>): (ls: seq<Label>)
    requires |keys| == |vals|
    ensures |ls| == |keys|
  {
    seq(|keys|, i requires 0 <= i < |keys| => (keys[i], vals[i]))
  }

  /** The labels in order, then the user metadata in any order, each entry once. */
  ghost predicate AreLabelsOf(keys: seq<string>, vals: seq<string>, m: Metric, publisher: string, shards: seq<string>)
    requires |shards| >= 1
  {
    var fixed := Labels(m, publisher, shards);
    && |keys| == |vals| == |fixed| + |m.resourceMetadata.userMetadata|
    && Zip(keys, vals)[..|fixed|] == fixed
    && multiset(Zip(keys, vals)[|fixed|..]) == multiset(m.resourceMetadata.userMetadata.Items)
  }

  /** The two slices while they are filled: the slots below index hold these labels, all
      others are still empty. */
  ghost predicate Filled(keys: array<string>, vals: array<string>, ls: seq<Label>)
    reads keys, vals
  {
    && keys != vals
    && |ls| <= keys.Length == vals.Length
    && (forall i | 0 <= i < |ls| :: keys[i] == ls[i].0 && vals[i] == ls[i].1)
    && (forall i | |ls| <= i < keys.Length :: keys[i] == "" && vals[i] == "")
  }

  /** The slots when the first k candidates have been looked at. */
  ghost predicate FilledUpTo(keys: array<string>, vals: array<string>, index: nat, fixed: seq<Label>, cs: seq<Label>,
      k: nat)
    reads keys, vals
  {
    && k <= |cs| && |fixed| + |cs| <= keys.Length
    && Filled(keys, vals, fixed + NonEmpty(cs[..k])) && index == |fixed + NonEmpty(cs[..k])|
  }

  /** The source's pattern `if value is not empty, fill the slot at index and advance`. */
  method FillOptional(keys: array<string>, vals: array<string>, index: nat, key: string, value: string,
                      ghost fixed: seq<Label>, ghost cs: seq<Label>, ghost k: nat)
    returns (index': nat)
    requires FilledUpTo(keys, vals, index, fixed, cs, k) && k < |cs| && cs[k] == (key, value)
    modifies keys, vals
    ensures FilledUpTo(keys, vals, index', fixed, cs, k + 1)
  {
    OneMoreCandidate(fixed, cs, k);
    index' := index;
    if value != "" {
      keys[index] := key;
      vals[index] := value;
      index' := index + 1;
    }
  }

  lemma OneMoreCandidate(fixed: seq<Label>, cs: seq<Label>, k: nat)
    requires k < |cs|
    ensures fixed + NonEmpty(cs[..k + 1]) == fixed + NonEmpty(cs[..k]) + Optional(cs[k].0, cs[k].1)
    ensures |NonEmpty(cs[..k])| <= k
  {
    assert cs[..k + 1][..k] == cs[..k];
    NonEmptyBounds(cs[..k]);
  }

  /** The plugin, publisher and type labels, which are always there. */
  method FillFixed(keys: array<string>, vals: array<string>, m: Metric, publisher: string, shards: seq<string>)
    requires |shards| >= 1 && keys.Length >= 3 && Filled(keys, vals, [])
    modifies keys, vals
    ensures Filled(keys, vals, FixedLabels(m, publisher, shards))
  {
    keys[0], vals[0] := shards[0], m.resourceID;
    if |shards| > 2 {
      vals[0] := shards[2];
    }
    keys[1], vals[1] := "publisher", publisher;
    keys[2], vals[2] := "type", if |shards| > 1 then shards[1] else shards[0];
  }

  /** Display name and name share one slot; the second write finds the first half there. */
  method FillResourceName(keys: array<string>, vals: array<string>, index: nat, md: Metadata,
                          ghost fixed: seq<Label>, ghost cs: seq<Label>, ghost k: nat)
    returns (index': nat)
    requires FilledUpTo(keys, vals, index, fixed, cs, k) && k < |cs| && cs[k] == ("resource_name", ResourceName(md))
    modifies keys, vals
    ensures FilledUpTo(keys, vals, index', fixed, cs, k + 1)
  {
    OneMoreCandidate(fixed, cs, k);
    index' := index;
    if md.displayName != "" {
      keys[index] := "resource_name";
      vals[index] := md.displayName;
    }
    if md.name != "" {
      keys[index] := "resource_name";
      if vals[index] != "" {
        vals[index] := vals[index] + ":" + md.name;
      } else {
        vals[index] := md.name;
      }
    }
    if vals[index] != "" {
      index' := index + 1;
    }
  }

  /** The user metadata, in whatever order the map is walked. */
  method FillUserMetadata(keys: array<string>, vals: array<string>, index: nat, metadata: map<string, string>,
      ghost ls: seq<Label>)
    returns (index': nat, ghost user: seq<Label>)
    requires Filled(keys, vals, ls) && index == |ls| && index + |metadata| <= keys.Length
    modifies keys, vals
    ensures multiset(user) == multiset(metadata.Items) && |user| == |metadata|
    ensures Filled(keys, vals, ls + user) && index' == |ls + user|
  {
    index', user := index, [];
    var items := metadata.Items;
    while items != {}
      invariant items <= metadata.Items
      invariant multiset(user) + multiset(items) == multiset(metadata.Items)
      invariant index' == |ls + user| && |user| + |items| == |metadata|
      invariant Filled(keys, vals, ls + user)
      decreases items
    {
      var item :| item in items;
      keys[index'], vals[index'] := item.0, item.1;
      index' := index' + 1;
      user := user + [item];
      items := items - {item};
    }
  }

  lemma ZipOfFilled(keys: seq<string>, vals: seq<string>, ls: seq<Label>)
    requires |keys| == |vals| == |ls|
    requires forall i | 0 <= i < |ls| :: keys[i] == ls[i].0 && vals[i] == ls[i].1
    ensures Zip(keys, vals) == ls
  {
  }

  lemma FilledAtEnds(keys: array<string>, vals: array<string>, index: nat, fixed: seq<Label>, cs: seq<Label>)
    ensures Filled(keys, vals, fixed) && index == |fixed| && |fixed| + |cs| <= keys.Length ==>
              FilledUpTo(keys, vals, index, fixed, cs, 0)
    ensures FilledUpTo(keys, vals, index, fixed, cs, |cs|) ==>
              var ls := fixed + NonEmpty(cs);
              Filled(keys, vals, ls) && index == |ls| <= |fixed| + |cs|
  {
    assert fixed + NonEmpty(cs[..0]) == fixed && cs[..|cs|] == cs;
    NonEmptyBounds(cs);
  }

  /** The optional labels of a metric, behind the three fixed ones. */
  method FillOptionals(keys: array<string>, vals: array<string>, m: Metric, ghost fixed: seq<Label>)
    returns (index: nat)
    requires Filled(keys, vals, fixed) && |fixed| == 3 && keys.Length >= 12
    modifies keys, vals
    ensures var ls := fixed + NonEmpty(Candidates(m));
            Filled(keys, vals, ls) && index == |ls| <= 12
  {
    hide Filled, FilledUpTo, NonEmpty, ResourceName;
    ghost var cs := Candidates(m);
    FilledAtEnds(keys, vals, 3, fixed, cs);
    index := FillOptional(keys, vals, 3, "counter", m.counterName, fixed, cs, 0);
    index := FillOptional(keys, vals, index, "project", m.projectID, fixed, cs, 1);
    index := FillOptional(keys, vals, index, "project_name", m.projectName, fixed, cs, 2);
    index := FillOptional(keys, vals, index, "user", m.userID, fixed, cs, 3);
    index := FillOptional(keys, vals, index, "user_name", m.userName, fixed, cs, 4);
    index := FillOptional(keys, vals, index, "unit", m.counterUnit, fixed, cs, 5);
    index := FillOptional(keys, vals, index, "resource", m.resourceID, fixed, cs, 6);
    index := FillOptional(keys, vals, index, "vm_instance", m.resourceMetadata.host, fixed, cs, 7);
    index := FillResourceName(keys, vals, index, m.resourceMetadata, fixed, cs, 8);
    FilledAtEnds(keys, vals, index, fixed, cs);
  }

  lemma EmptySlots(keys: array<string>, vals: array<string>)
    requires keys != vals && keys.Length == vals.Length
    requires forall i | 0 <= i < keys.Length :: keys[i] == "" && vals[i] == ""
    ensures Filled(keys, vals, [])
  {
  }

  lemma FilledPrefix(keys: array<string>, vals: array<string>, ls: seq<Label>)
    requires Filled(keys, vals, ls)
    ensures |ls| <= keys.Length == vals.Length && Zip(keys[..|ls|], vals[..|ls|]) == ls
  {
    ZipOfFilled(keys[..|ls|], vals[..|ls|], ls);
  }

  method GenLabels(m: Metric, publisher: string, shards: seq<string>)
    returns (labelKeys: seq<string>, labelVals: seq<string>)
    requires |shards| >= 1
    ensures AreLabelsOf(labelKeys, labelVals, m, publisher, shards)
  {
    hide Filled, Candidates, NonEmpty, Zip;
    var slots := 12 + |m.resourceMetadata.userMetadata|;
    var keys := new string[slots](_ => "");
    var vals := new string[slots](_ => "");
    assert Filled(keys, vals, []) by { EmptySlots(keys, vals); }
    FillFixed(keys, vals, m, publisher, shards);
    ghost var ls := Labels(m, publisher, shards);
    var index := FillOptionals(keys, vals, m, FixedLabels(m, publisher, shards));
    ghost var user;
    index, user := FillUserMetadata(keys, vals, index, m.resourceMetadata.userMetadata, ls);
    labelKeys, labelVals := keys[..index], vals[..index];
    FilledPrefix(keys, vals, ls + user);
    assert (ls + user)[..|ls|] == ls && (ls + user)[|ls|..] == user;
  }

  // ---------- Messages ----------

  function TypeOf(counterType: string): (r: MetricType) {
    if counterType == "cumulative" then Counter
    else if counterType == "gauge" then Gauge
    else Untyped
  }

  const METRIC_TIMEOUT := 100   // seconds

  datatype Published = Published(
    name: string, time: real, mType: MetricType, interval: int, value: real, keys: seq<string>, vals: seq<string>)

  /** What a metric with a name is published as; `parse` stands for the date parser. */
  ghost predicate IsPublicationOf(p: Published, parse: string -> real, m: Metric, publisher: string) {
    && p.name == "ceilometer_" + Replace(m.counterName, '.', '_')
    && p.time == (if parse(m.timestamp) < 0.0 then 0.0 else parse(m.timestamp))
    && p.mType == (match m.counterType
                   case "cumulative" => Counter
                   case "gauge" => Gauge
                   case _ => Untyped)
    && p.interval == 100
    && p.value == m.counterVolume
    && AreLabelsOf(p.keys, p.vals, m, publisher, Split(m.counterName, '.'))
  }

  /** The list `after` is `before` with one publication for each of these metrics, in order. */
  ghost predicate PublishedInOrder(before: seq<Published>, after: seq<Published>, parse: string -> real,
      ms: seq<Metric>, publisher: string)
  {
    && |after| == |before| + |ms|
    && before <= after
    && forall i | 0 <= i < |ms| :: IsPublicationOf(after[|before| + i], parse, ms[i], publisher)
  }

  lemma NothingPublished(before: seq<Published>, parse: string -> real, publisher: string)
    ensures PublishedInOrder(before, before, parse, [], publisher)
  {
  }

  lemma OneMorePublished(before: seq<Published>, after: seq<Published>, parse: string -> real, ms: seq<Metric>,
      publisher: string, p: Published, m: Metric)
    requires PublishedInOrder(before, after, parse, ms, publisher) && IsPublicationOf(p, parse, m, publisher)
    ensures PublishedInOrder(before, after + [p], parse, ms + [m], publisher)
  {
    hide IsPublicationOf;
  }

  /** How many metrics come before the first one without a name. */
  function NamedPrefix(ms: seq<Metric>): (k: nat)
    ensures k <= |ms|
    ensures forall i | 0 <= i < k :: ms[i].counterName != ""
    ensures k < |ms| ==> ms[k].counterName == ""
  {
    if ms == [] || ms[0].counterName == "" then 0 else 1 + NamedPrefix(ms[1..])
  }

  lemma {:induction false} NamedPrefixIs(ms: seq<Metric>, k: nat)
    requires k <= |ms|
    requires forall i | 0 <= i < k :: ms[i].counterName != ""
    requires k < |ms| ==> ms[k].counterName == ""
    ensures NamedPrefix(ms) == k
  {
    if k > 0 {
      NamedPrefixIs(ms[1..], k - 1);
    }
  }

  datatype Failure = Unparsable | MissingPublisher | EmptyPayload | MissingCounterName

  function ValidateMessage(msg: Message): (r: Option<Failure>) {
    if msg.publisher == "" then Some(MissingPublisher)
    else if msg.payload == [] then Some(EmptyPayload)
    else None
  }

  class Handler {
    var totalMetricsDecoded: int
    var totalDecodeErrors: int
    var totalMessagesReceived: int
    var published: seq<Published>   // calls of the metric publish function
    var reported: seq<Failure>      // calls of the event publish function

    method CountError(e: Failure, reportErrs: bool)
      modifies this`totalDecodeErrors, this`reported
      ensures totalDecodeErrors == old(totalDecodeErrors) + 1
      ensures reported == old(reported) + if reportErrs then [e] else []
    {
      totalDecodeErrors := totalDecodeErrors + 1;
      if reportErrs {
        reported := reported + [e];
      }
    }

    method PublishMetric(m: Metric, publisher: string, parse: string -> real)
      modifies this`published
      ensures exists p :: IsPublicationOf(p, parse, m, publisher) && published == old(published) + [p]
    {
      var t := parse(m.timestamp);
      if t < 0.0 {
        t := 0.0;
      }
      var shards := Split(m.counterName, '.');
      var keys, vals := GenLabels(m, publisher, shards);
      GenNameReplacesDots(m.counterName);
      var p := Published(GenName(shards), t, TypeOf(m.counterType), METRIC_TIMEOUT, m.counterVolume, keys, vals);
      published := published + [p];
      hide AreLabelsOf, Split, Replace;
      assert IsPublicationOf(p, parse, m, publisher);
    }

    /** One blob, given as what the parser made of it. All metrics in front of the first one
        without a name are published, in order; that one fails the message. */
    method Handle(parsed: Option<Message>, parse: string -> real, reportErrs: bool) returns (err: Option<Failure>)
      modifies this
      ensures totalMessagesReceived == old(totalMessagesReceived) + 1
      ensures err == (if parsed.None? then Some(Unparsable)
                      else if parsed.value.publisher == "" then Some(MissingPublisher)
                      else if parsed.value.payload == [] then Some(EmptyPayload)
                      else if NamedPrefix(parsed.value.payload) < |parsed.value.payload| then Some(MissingCounterName)
                      else None)
      ensures if parsed.None? || parsed.value.publisher == "" || parsed.value.payload == []
              then totalMetricsDecoded == old(totalMetricsDecoded) && published == old(published)
              else var k := NamedPrefix(parsed.value.payload);
                   && totalMetricsDecoded == old(totalMetricsDecoded) + k
                   && PublishedInOrder(old(published), published, parse, parsed.value.payload[..k],
                      parsed.value.publisher)
      ensures var failed := err.Some? && err != Some(Unparsable);
              && totalDecodeErrors == old(totalDecodeErrors) + (if failed then 1 else 0)
              && reported == old(reported) + if failed && reportErrs then [err.value] else []
    {
      hide PublishedInOrder, IsPublicationOf, NamedPrefix;
      totalMessagesReceived := totalMessagesReceived + 1;
      if parsed.None? {
        return Some(Unparsable);
      }
      var msg := parsed.value;
      err := ValidateMessage(msg);
      if err.Some? {
        CountError(err.value, reportErrs);
        return;
      }
      NothingPublished(published, parse, msg.publisher);
      for i := 0 to |msg.payload|
        invariant forall j | 0 <= j < i :: msg.payload[j].counterName != ""
        invariant totalMetricsDecoded == old(totalMetricsDecoded) + i
        invariant PublishedInOrder(old(published), published, parse, msg.payload[..i], msg.publisher)
        invariant totalMessagesReceived == old(totalMessagesReceived) + 1
        invariant totalDecodeErrors == old(totalDecodeErrors) && reported == old(reported)
      {
        var m := msg.payload[i];
        if m.counterName == "" {
          NamedPrefixIs(msg.payload, i);
          CountError(MissingCounterName, reportErrs);
          return Some(MissingCounterName);
        }
        totalMetricsDecoded := totalMetricsDecoded + 1;
        ghost var before := published;
        PublishMetric(m, msg.publisher, parse);
        ghost var p :| IsPublicationOf(p, parse, m, msg.publisher) && published == before + [p];
        OneMorePublished(old(published), before, parse, msg.payload[..i], msg.publisher, p, m);
        assert msg.payload[..i] + [m] == msg.payload[..i + 1];
      }
      NamedPrefixIs(msg.payload, |msg.payload|);
      return None;
    }
  }

}
