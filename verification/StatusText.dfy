/**
 * The reason and message that createStatus makes of a batch of events
 * (controllers/configurationpolicy_utils.go, createStatus and generateMessageWithReason).
 */
module StatusText {
  import opened Sorting
  import opened Json
  import opened GoStd
  import opened Events

  const WANT_FOUND_EXISTS := "Resource found as expected"
  const WANT_FOUND_CREATED := "K8s creation success"
  const UPDATE_SUCCESS := "K8s update success"
  const DELETE_SUCCESS := "K8s deletion success"
  const WANT_FOUND_NO_MATCH := "Resource found but does not match"
  const WANT_FOUND_DNE := "Resource not found but should exist"
  const WANT_NOT_FOUND_EXISTS := "Resource found but should not exist"
  const WANT_NOT_FOUND_DNE := "Resource not found as expected"

  /** What is reported for an event reason, and the format of its message. */
  datatype Wording = Wording(reason: string, format: string)

  function WordingOf(reason: string): Option<Wording> {
    if reason == WANT_FOUND_EXISTS then
      Some(Wording("K8s `must have` object already exists", "%s%s found as specified"))
    else if reason == WANT_FOUND_CREATED then Some(Wording(WANT_FOUND_CREATED, "%s%s was created successfully"))
    else if reason == UPDATE_SUCCESS then Some(Wording(UPDATE_SUCCESS, "%s%s was updated successfully"))
    else if reason == DELETE_SUCCESS then Some(Wording(DELETE_SUCCESS, "%s%s was deleted successfully"))
    else if reason == WANT_FOUND_DNE then Some(Wording("K8s does not have a `must have` object", "%s%s not found"))
    else if reason == WANT_FOUND_NO_MATCH then
      Some(Wording("K8s does not have a `must have` object", "%s%s found but not as specified"))
    else if reason == WANT_NOT_FOUND_EXISTS then Some(Wording("K8s has a `must not have` object", "%s%s found"))
    else if reason == WANT_NOT_FOUND_DNE then
      Some(Wording("K8s `must not have` object already missing", "%s%s missing as expected"))
    else None
  }

  function OrderedReasons(): seq<string> {
    [WANT_FOUND_EXISTS, WANT_FOUND_CREATED, UPDATE_SUCCESS, DELETE_SUCCESS,
     WANT_FOUND_DNE, WANT_FOUND_NO_MATCH, WANT_NOT_FOUND_DNE, WANT_NOT_FOUND_EXISTS]
  }

  /** The wordings, `fmt.Sprintf` of a format with two strings, and the kind of resource. */
  datatype Context = Context(
    wording: string -> Option<Wording>, sprintf: (string, string, string) -> string, resource: string)

  datatype Text = Text(reason: string, message: string)

  // ---------- lists and strings ----------

  /** The elements of a set in ascending order. */
  ghost function Listed(s: set<string>): (r: seq<string>)
    ensures SetOf(r) == s && Ascending(r)
  {
    ListedExists(s);
    var r :| SetOf(r) == s && Ascending(r);
    r
  }

  lemma {:induction false} ListedExists(s: set<string>)
    ensures exists r :: SetOf(r) == s && Ascending(r)
  {
    var elements := Elements(s);
    SortedStrings(elements);
  }

  lemma {:induction false} Elements(s: set<string>) returns (r: seq<string>)
    ensures SetOf(r) == s && Distinct(r)
  {
    if s == {} {
      r := [];
    } else {
      var x :| x in s;
      var rest := Elements(s - {x});
      r := rest + [x];
      assert x !in SetOf(rest);
      assert SetOf(r) == SetOf(rest) + {x};
    }
  }

  method List(s: set<string>) returns (r: seq<string>)
    ensures r == Listed(s)
  {
    r := SortedList(s);
    AscendingUnique(r, Listed(s));
  }

  /** strings.Cut at the first slash. */
  function Cut(s: string): (string, string) {
    if s == "" then ("", "")
    else if s[0] == '/' then ("", s[1..])
    else var rest := Cut(s[1..]); ([s[0]] + rest.0, rest.1)
  }

  function WithSeparator(message: string): string {
    if message != "" && !(|message| >= 2 && message[|message| - 2..] == "; ") then message + "; " else message
  }

  function AddReason(before: string, reason: string): string {
    (if before != "" then before + "; " else "") + reason
  }

  // ---------- what the text is ----------

  function NamesText(batch: Batch, key: string): string
    requires key in batch
  {
    if |batch[key].result.objectNames| > 0 then Join(batch[key].result.objectNames, ", ") else Cut(key).1
  }

  ghost function NamesTexts(batch: Batch): set<string> {
    set k | k in batch :: NamesText(batch, k)
  }

  /** The keys that are reported under `names`, in their order. */
  function Having(batch: Batch, keys: seq<string>, names: string): (r: seq<string>)
    ensures forall k :: k in r <==> k in keys && k in batch && NamesText(batch, k) == names
  {
    if keys == [] then []
    else
      var n := |keys| - 1;
      Having(batch, keys[..n], names) + if keys[n] in batch && NamesText(batch, keys[n]) == names then [keys[n]] else []
  }

  ghost function Namespaces(keys: seq<string>): set<string> {
    set k | k in keys && Cut(k).0 != "" :: Cut(k).0
  }

  function Format(format: string, namespaces: seq<string>): string {
    if namespaces == [] then format
    else format + (if |namespaces| > 1 then " in namespaces: " else " in namespace ") + Join(namespaces, ", ")
  }

  /** Which names share a message: those with the same format, and so the same namespaces. */
  ghost function Formats(batch: Batch, format: string, keys: seq<string>,
                         texts: seq<string>): map<string, seq<string>>
  {
    if texts == [] then map[]
    else
      var n := |texts| - 1;
      var before := Formats(batch, format, keys, texts[..n]);
      var f := Format(format, Listed(Namespaces(Having(batch, keys, texts[n]))));
      before[f := (if f in before then before[f] else []) + [texts[n]]]
  }

  function Message(c: Context, format: string, names: seq<string>): string {
    var joined := Join(Sort(ByString(), names), ", ");
    c.sprintf(format, c.resource, if joined != "" then " [" + joined + "]" else "")
  }

  function Combined(c: Context, byFormat: map<string, seq<string>>, formats: seq<string>, message: string): string
    requires forall f :: f in formats ==> f in byFormat
  {
    if formats == [] then message
    else
      var n := |formats| - 1;
      Combined(c, byFormat, formats[..n], message) + (if n > 0 then "; " else "") +
        Message(c, formats[n], byFormat[formats[n]])
  }

  function Messages(batch: Batch, keys: seq<string>): string
    requires forall k :: k in keys ==> k in batch
  {
    Join(seq(|keys|, i requires 0 <= i < |keys| => batch[keys[i]].event.message), "; ")
  }

  /** The messages of a reason without a wording, for each text in turn. */
  function Verbatim(batch: Batch, keys: seq<string>, texts: seq<string>, message: string): string {
    if texts == [] then message
    else
      var n := |texts| - 1;
      WithSeparator(Verbatim(batch, keys, texts[..n], message)) + Messages(batch, Having(batch, keys, texts[n]))
  }

  ghost function GroupText(c: Context, reason: string, batch: Batch, before: Text): Text {
    var keys, texts := Listed(batch.Keys), Listed(NamesTexts(batch));
    if texts == [] then before
    else match c.wording(reason)
      case None => Text(AddReason(before.reason, reason), Verbatim(batch, keys, texts, before.message))
      case Some(w) =>
        var byFormat := Formats(batch, w.format, keys, texts);
        Text(AddReason(before.reason, w.reason),
          Combined(c, byFormat, Listed(byFormat.Keys), WithSeparator(before.message)))
  }

  ghost function ReasonsText(c: Context, reasons: seq<string>, batch: Batch): Text {
    if reasons == [] then Text("", "")
    else
      var n := |reasons| - 1;
      GroupText(c, reasons[n], WithReason(batch, reasons[n]), ReasonsText(c, reasons[..n], batch))
  }

  ghost function Reasons(batch: Batch): set<string> {
    set k | k in batch :: batch[k].event.reason
  }

  /** What createStatus reports, as a function of the batch alone. */
  ghost function StatusText(c: Context, order: seq<string>, batch: Batch): Text {
    ReasonsText(c, order + Listed(Reasons(Relevant(batch)) - SetOf(order)), Relevant(batch))
  }

  // ---------- how it is computed ----------

  /** The reasons with a group, once the events are grouped. */
  lemma {:induction false} GroupedReasons(batch: Batch, byReason: map<string, Batch>)
    requires GroupedByReason(batch, byReason)
    ensures byReason.Keys == Reasons(batch)
    ensures forall reason :: WithReason(batch, reason) == if reason in byReason then byReason[reason] else map[]
  {
    forall reason
      ensures reason in byReason <==> reason in Reasons(batch)
    {
      if reason in byReason {
        var k :| k in batch && batch[k].event.reason == reason;
        assert batch[k].event.reason in Reasons(batch);
      }
    }
    forall reason
      ensures WithReason(batch, reason) == if reason in byReason then byReason[reason] else map[]
    {
      if reason !in byReason {
        assert WithReason(batch, reason) == map[];
      }
    }
  }

  /** createStatus: whatever the orders in which maps are visited, the result is that of the batch. */
  method CreateStatus(sprintf: (string, string, string) -> string, resource: string, batch: Batch)
    returns (compliant: bool, text: Text)
    ensures compliant <==> AllCompliant(batch)
    ensures text == StatusText(Context(WordingOf, sprintf, resource), OrderedReasons(), batch)
  {
    compliant, text := Summarise(Context(WordingOf, sprintf, resource), OrderedReasons(), batch);
  }

  /** Once one event is noncompliant, the compliant ones make no difference to what is reported. */
  lemma {:induction false} OnlyRelevantMatters(c: Context, order: seq<string>, a: Batch, b: Batch)
    requires !AllCompliant(a) && !AllCompliant(b)
    requires forall k :: k in a && !a[k].event.compliant <==> k in b && !b[k].event.compliant
    requires forall k :: k in a && !a[k].event.compliant ==> a[k] == b[k]
    ensures StatusText(c, order, a) == StatusText(c, order, b)
  {
    assert Relevant(a) == Relevant(b);
  }

  /** createStatus, for any wordings and any order of the reasons that come first. */
  method Summarise(c: Context, order: seq<string>, batch: Batch) returns (compliant: bool, text: Text)
    ensures compliant <==> AllCompliant(batch)
    ensures text == StatusText(c, order, batch)
  {
    var byReason;
    compliant, byReason := CollectRelevant(batch);
    GroupedReasons(Relevant(batch), byReason);
    var others := OtherReasons(order, byReason.Keys);
    text := ReasonStatuses(c, order + others, Relevant(batch), byReason);
  }

  /** The reasons that are in no fixed order, sorted. */
  method OtherReasons(order: seq<string>, reasons: set<string>) returns (listed: seq<string>)
    ensures listed == Listed(reasons - SetOf(order))
  {
    var others := {};
    var left := reasons;
    while left != {}
      invariant left <= reasons && others == reasons - left - SetOf(order)
      decreases left
    {
      var reason :| reason in left;
      left := left - {reason};
      if reason !in order {
        others := others + {reason};
      }
    }
    assert others == reasons - SetOf(order);
    listed := List(others);
  }

  /** The loop over the ordered reasons. */
  method ReasonStatuses(c: Context, reasons: seq<string>, ghost batch: Batch, byReason: map<string, Batch>)
    returns (text: Text)
    requires forall reason :: WithReason(batch, reason) == if reason in byReason then byReason[reason] else map[]
    ensures text == ReasonsText(c, reasons, batch)
  {
    text := Text("", "");
    for i := 0 to |reasons|
      invariant text == ReasonsText(c, reasons[..i], batch)
    {
      ReasonsNext(c, reasons, i, batch);
      text := GroupStatus(c, reasons[i], if reasons[i] in byReason then byReason[reasons[i]] else map[], text);
    }
    assert reasons[..|reasons|] == reasons;
  }

  lemma {:induction false} ReasonsNext(c: Context, reasons: seq<string>, i: nat, batch: Batch)
    requires i < |reasons|
    ensures ReasonsText(c, reasons[..i + 1], batch) ==
      GroupText(c, reasons[i], WithReason(batch, reasons[i]), ReasonsText(c, reasons[..i], batch))
  {
    assert reasons[..i + 1][..i] == reasons[..i];
  }

  /** One reason of createStatus. */
  method GroupStatus(c: Context, reason: string, batch: Batch, before: Text) returns (after: Text)
    ensures after == GroupText(c, reason, batch, before)
  {
    var keys := List(batch.Keys);
    var texts, byText := SortNames(batch, keys);
    if texts == [] {
      return before;
    }
    match c.wording(reason) {
      case None =>
        var message := VerbatimMessages(batch, keys, texts, byText, before.message);
        after := Text(AddReason(before.reason, reason), message);
      case Some(w) =>
        var byFormat := GroupFormats(batch, w.format, keys, texts, byText);
        var message := Combine(c, byFormat, WithSeparator(before.message));
        after := Text(AddReason(before.reason, w.reason), message);
    }
  }

  method VerbatimMessages(batch: Batch, ghost keys: seq<string>, texts: seq<string>, byText: map<string, seq<string>>,
                          before: string)
    returns (message: string)
    requires forall t :: t in texts ==> t in byText && byText[t] == Having(batch, keys, t)
    ensures message == Verbatim(batch, keys, texts, before)
  {
    message := before;
    for i := 0 to |texts|
      invariant message == Verbatim(batch, keys, texts[..i], before)
    {
      assert texts[..i + 1][..i] == texts[..i];
      message := WithSeparator(message) + Messages(batch, byText[texts[i]]);
    }
    assert texts[..|texts|] == texts;
  }

  lemma {:induction false} FormatsNext(batch: Batch, format: string, keys: seq<string>, texts: seq<string>, i: nat)
    requires i < |texts|
    ensures var before := Formats(batch, format, keys, texts[..i]);
      var f := Format(format, Listed(Namespaces(Having(batch, keys, texts[i]))));
      Formats(batch, format, keys, texts[..i + 1]) == before[f := (if f in before then before[f] else []) + [texts[i]]]
  {
    assert texts[..i + 1][..i] == texts[..i];
  }

  method GroupFormats(batch: Batch, format: string, ghost keys: seq<string>, texts: seq<string>,
                      byText: map<string, seq<string>>)
    returns (byFormat: map<string, seq<string>>)
    requires forall t :: t in texts ==> t in byText && byText[t] == Having(batch, keys, t)
    ensures byFormat == Formats(batch, format, keys, texts)
  {
    byFormat := map[];
    for i := 0 to |texts|
      invariant byFormat == Formats(batch, format, keys, texts[..i])
    {
      FormatsNext(batch, format, keys, texts, i);
      var f := WithNamespaces(format, byText[texts[i]]);
      byFormat := byFormat[f := (if f in byFormat then byFormat[f] else []) + [texts[i]]];
    }
    assert texts[..|texts|] == texts;
  }

  /** The groups that `having` gives, by text, and the texts in the order they came up. */
  ghost predicate Grouped(texts: seq<string>, byText: map<string, seq<string>>, having: string -> seq<string>) {
    && Distinct(texts)
    && (forall t :: t in texts <==> t in byText)
    && (forall t :: having(t) == if t in byText then byText[t] else [])
    && (forall t :: t in byText ==> byText[t] != [])
  }

  ghost predicate GroupedByText(batch: Batch, keys: seq<string>, texts: seq<string>, byText: map<string, seq<string>>) {
    Grouped(texts, byText, t => Having(batch, keys, t))
  }

  lemma {:induction false} HavingNext(batch: Batch, keys: seq<string>, key: string, t: string)
    requires key in batch
    ensures Having(batch, keys + [key], t) == Having(batch, keys, t) + if NamesText(batch, key) == t then [key] else []
  {
    assert (keys + [key])[..|keys|] == keys;
  }

  lemma {:induction false} GroupAnother(texts: seq<string>, byText: map<string, seq<string>>, key: string, t: string,
                     before: string -> seq<string>, after: string -> seq<string>)
    requires Grouped(texts, byText, before)
    requires forall u :: after(u) == before(u) + if u == t then [key] else []
    ensures Grouped(if t in byText then texts else texts + [t],
      byText[t := (if t in byText then byText[t] else []) + [key]], after)
  {
  }

  lemma {:induction false} GroupNext(batch: Batch, keys: seq<string>, key: string, texts: seq<string>,
                                     byText: map<string, seq<string>>, t: string)
    requires GroupedByText(batch, keys, texts, byText) && key in batch && t == NamesText(batch, key)
    ensures GroupedByText(batch, keys + [key], if t in byText then texts else texts + [t],
                          byText[t := (if t in byText then byText[t] else []) + [key]])
  {
    var before, after := (u: string) => Having(batch, keys, u), (u: string) => Having(batch, keys + [key], u);
    forall u
      ensures after(u) == before(u) + if u == t then [key] else []
    {
      HavingNext(batch, keys, key, u);
    }
    GroupAnother(texts, byText, key, t, before, after);
  }

  lemma {:induction false} GroupedTexts(batch: Batch, keys: seq<string>, texts: seq<string>,
                                        byText: map<string, seq<string>>)
    requires SetOf(keys) == batch.Keys && GroupedByText(batch, keys, texts, byText)
    ensures Distinct(texts) && SetOf(texts) == NamesTexts(batch)
    ensures forall t :: t in texts ==> t in byText && byText[t] == Having(batch, keys, t)
  {
    forall t
      ensures t in texts <==> t in NamesTexts(batch)
    {
      if t in texts {
        var k := Having(batch, keys, t)[0];
        assert k in Having(batch, keys, t);
      }
      if t in NamesTexts(batch) {
        var k :| k in batch && NamesText(batch, k) == t;
        assert k in SetOf(keys);
        assert k in Having(batch, keys, t);
      }
    }
  }

  lemma {:induction false} SortedTexts(batch: Batch, keys: seq<string>, texts: seq<string>,
                                       byText: map<string, seq<string>>)
    requires SetOf(keys) == batch.Keys && GroupedByText(batch, keys, texts, byText)
    ensures var sorted := Sort(ByString(), texts);
      && sorted == Listed(NamesTexts(batch))
      && forall t :: t in sorted ==> t in byText && byText[t] == Having(batch, keys, t)
  {
    GroupedTexts(batch, keys, texts, byText);
    SortedStrings(texts);
    var sorted := Sort(ByString(), texts);
    AscendingUnique(sorted, Listed(NamesTexts(batch)));
    forall t | t in sorted
      ensures t in texts
    {
      assert t in SetOf(sorted);
      assert t in SetOf(texts);
    }
  }

  method AddKey(batch: Batch, ghost keys: seq<string>, key: string, texts: seq<string>,
                byText: map<string, seq<string>>)
    returns (texts': seq<string>, byText': map<string, seq<string>>)
    requires GroupedByText(batch, keys, texts, byText) && key in batch
    ensures GroupedByText(batch, keys + [key], texts', byText')
  {
    var t := NamesText(batch, key);
    GroupNext(batch, keys, key, texts, byText, t);
    texts' := texts;
    if t !in byText {
      texts' := texts' + [t];
    }
    byText' := byText[t := (if t in byText then byText[t] else []) + [key]];
  }

  lemma {:induction false} NothingGrouped(batch: Batch)
    ensures GroupedByText(batch, [], [], map[])
  {
  }

  method GroupKeys(batch: Batch, keys: seq<string>) returns (texts: seq<string>, byText: map<string, seq<string>>)
    requires SetOf(keys) == batch.Keys
    ensures GroupedByText(batch, keys, texts, byText)
  {
    texts, byText := [], map[];
    NothingGrouped(batch);
    ghost var done := [];
    for i := 0 to |keys|
      invariant done == keys[..i]
      invariant GroupedByText(batch, done, texts, byText)
    {
      assert keys[i] in SetOf(keys);
      texts, byText := AddKey(batch, done, keys[i], texts, byText);
      done := done + [keys[i]];
    }
    assert done == keys;
  }

  /** The names reported for the keys, sorted, and the keys of each. */
  method SortNames(batch: Batch, keys: seq<string>) returns (texts: seq<string>, byText: map<string, seq<string>>)
    requires SetOf(keys) == batch.Keys
    ensures texts == Listed(NamesTexts(batch))
    ensures forall t :: t in texts ==> t in byText && byText[t] == Having(batch, keys, t)
  {
    texts, byText := GroupKeys(batch, keys);
    SortedTexts(batch, keys, texts, byText);
    texts := Sort(ByString(), texts);
  }

  /** A format with the namespaces of the keys, which are gathered in a map. */
  method WithNamespaces(format: string, keys: seq<string>) returns (r: string)
    ensures r == Format(format, Listed(Namespaces(keys)))
  {
    var namespaces := {};
    for i := 0 to |keys|
      invariant namespaces == Namespaces(keys[..i])
    {
      assert keys[..i + 1] == keys[..i] + [keys[i]];
      if Cut(keys[i]).0 != "" {
        namespaces := namespaces + {Cut(keys[i]).0};
      }
    }
    assert keys[..|keys|] == keys;
    var listed := List(namespaces);
    r := Format(format, listed);
  }

  /** getCombinedCompliancyDetailsMsg. */
  method Combine(c: Context, byFormat: map<string, seq<string>>, message: string) returns (r: string)
    ensures SetOf(Listed(byFormat.Keys)) == byFormat.Keys
    ensures forall f :: f in Listed(byFormat.Keys) ==> f in byFormat
    ensures r == Combined(c, byFormat, Listed(byFormat.Keys), message)
  {
    var formats := List(byFormat.Keys);
    assert forall f :: f in formats ==> f in SetOf(formats);
    r := message;
    for i := 0 to |formats|
      invariant r == Combined(c, byFormat, formats[..i], message)
    {
      assert formats[..i + 1][..i] == formats[..i];
      r := r + (if i > 0 then "; " else "") + Message(c, formats[i], byFormat[formats[i]]);
    }
    assert formats[..|formats|] == formats;
  }
}
