/** The words of a status, for events of one kind (controllers/configurationpolicy_utils.go, createStatus). */
module StatusWording {
  import opened Sorting
  import opened Json
  import opened GoStd
  import opened Events
  import opened StatusText

  /**
   * For each reason of an event, in the order in which they are reported: the reason given, and the message's format.
   */
  const WORDINGS := [
    ("Resource found as expected", "K8s `must have` object already exists", "%s%s found as specified"),
    ("K8s creation success", "K8s creation success", "%s%s was created successfully"),
    ("K8s update success", "K8s update success", "%s%s was updated successfully"),
    ("K8s deletion success", "K8s deletion success", "%s%s was deleted successfully"),
    ("Resource not found but should exist", "K8s does not have a `must have` object", "%s%s not found"),
    ("Resource found but does not match", "K8s does not have a `must have` object", "%s%s found but not as specified"),
    ("Resource not found as expected", "K8s `must not have` object already missing", "%s%s missing as expected"),
    ("Resource found but should not exist", "K8s has a `must not have` object", "%s%s found")
  ]

  lemma {:induction false} OrderIs(i: nat)
    requires i < 8
    ensures |OrderedReasons()| == |WORDINGS| == 8 && OrderedReasons()[i] == WORDINGS[i].0
  {
  }

  /** The reasons are told apart by their lengths, or by their first difference. */
  lemma {:induction false} ReasonsApart(i: nat, j: nat)
    requires i < j < 8
    ensures WORDINGS[i].0 != WORDINGS[j].0
  {
    var a, b := WORDINGS[i].0, WORDINGS[j].0;
    assert |WORDINGS[0].0| == 26 && |WORDINGS[1].0| == 20 && |WORDINGS[2].0| == 18 && |WORDINGS[3].0| == 20;
    assert |WORDINGS[4].0| == 35 && |WORDINGS[5].0| == 33 && |WORDINGS[6].0| == 30 && |WORDINGS[7].0| == 35;
    assert WORDINGS[1].0[4] == 'c' && WORDINGS[3].0[4] == 'd';
    assert WORDINGS[4].0[9] == 'n' && WORDINGS[7].0[9] == 'f';
  }

  lemma {:induction false} WordingIs(i: nat)
    requires i < 8
    ensures WordingOf(WORDINGS[i].0) == Some(Wording(WORDINGS[i].1, WORDINGS[i].2))
  {
    forall j, k | 0 <= j < k < 8
      ensures WORDINGS[j].0 != WORDINGS[k].0
    {
      ReasonsApart(j, k);
    }
  }

  lemma {:induction false} OtherReasons(reason: string)
    requires forall i :: 0 <= i < 8 ==> WORDINGS[i].0 != reason
    ensures WordingOf(reason) == None && reason !in OrderedReasons()
  {
    assert WordingOf(reason).Some? ==> reason in OrderedReasons();
    if reason in OrderedReasons() {
      var i :| 0 <= i < |OrderedReasons()| && OrderedReasons()[i] == reason;
      OrderIs(i);
    }
  }

  // ---------- pieces of text ----------

  /** An object's key is its namespace and its name with a slash between them. */
  lemma {:induction false} CutMeans(namespace: string, name: string)
    requires '/' !in namespace
    ensures Cut(namespace + "/" + name) == (namespace, name)
  {
    var s := namespace + "/" + name;
    if namespace == "" {
      assert s[0] == '/' && s[1..] == name;
    } else {
      CutMeans(namespace[1..], name);
      assert s[0] == namespace[0] != '/';
      assert s[1..] == namespace[1..] + "/" + name;
      assert [s[0]] + namespace[1..] == namespace;
    }
  }

  lemma {:induction false} NothingToCut(s: string)
    requires '/' !in s
    ensures Cut(s) == (s, "")
  {
    if s != "" {
      NothingToCut(s[1..]);
      assert s == [s[0]] + s[1..];
    }
  }

  /** Messages are joined by "; ", which is not written twice, nor before the first one. */
  lemma {:induction false} SeparatorMeans(message: string)
    ensures WithSeparator("") == ""
    ensures WithSeparator(message + "; ") == message + "; "
    ensures message != "" && (|message| < 2 || message[|message| - 2..] != [';', ' ']) ==>
      WithSeparator(message) == message + "; "
  {
    var ended := message + "; ";
    assert ended[|ended| - 2..] == "; ";
  }

  lemma {:induction false} ReasonsJoined(before: string, reason: string)
    ensures AddReason("", reason) == reason
    ensures before != "" ==> AddReason(before, reason) == before + [';', ' '] + reason
  {
  }

  lemma {:induction false} JoinMeans(a: string, rest: seq<string>, separator: string)
    ensures Join([], separator) == "" && Join([a], separator) == a
    ensures rest != [] ==> Join([a] + rest, separator) == a + separator + Join(rest, separator)
  {
    assert ([a] + rest)[1..] == rest;
  }

  /** The names of an object's event: those that were found, and else the name that the key has after the namespace. */
  lemma {:induction false} NamesMeans(batch: Batch, namespace: string, name: string, key: string)
    requires '/' !in namespace && key == namespace + "/" + name && key in batch
    ensures var found := batch[key].result.objectNames;
      NamesText(batch, key) == if found == [] then name else Join(found, [',', ' '])
  {
    CutMeans(namespace, name);
  }

  /** The names stand in brackets after the kind, sorted; without names there are no brackets. */
  lemma {:induction false} MessageMeans(c: Context, format: string, names: seq<string>)
    ensures var joined := Join(Sort(ByString(), names), [',', ' ']);
      Message(c, format, names) ==
        c.sprintf(format, c.resource, if |joined| == 0 then [] else [' ', '['] + joined + [']'])
  {
  }

  /** Messages of one reason without a wording follow each other, separated. */
  lemma {:induction false} MessagesMeans(batch: Batch, key: string, rest: seq<string>)
    requires key in batch && forall k :: k in rest ==> k in batch
    ensures Messages(batch, []) == "" && Messages(batch, [key]) == batch[key].event.message
    ensures rest != [] ==>
      Messages(batch, [key] + rest) == batch[key].event.message + [';', ' '] + Messages(batch, rest)
  {
    var keys := [key] + rest;
    var texts := seq(|rest|, i requires 0 <= i < |rest| => batch[rest[i]].event.message);
    assert seq(|keys|, i requires 0 <= i < |keys| => batch[keys[i]].event.message) ==
      [batch[key].event.message] + texts;
    JoinMeans(batch[key].event.message, texts, "; ");
    assert Messages(batch, []) == Join([], "; ");
    assert seq(|[key]|, i requires 0 <= i < |[key]| => batch[[key][i]].event.message) == [batch[key].event.message];
  }

  // ---------- the same everywhere ----------

  lemma {:induction false} ListedOne(x: string)
    ensures Listed({x}) == [x]
  {
    var r := Listed({x});
    assert SetOf([x]) == {x} && Ascending([x]);
    AscendingUnique(r, [x]);
  }

  /** Every event of the batch has this reason, and its object these names. */
  ghost predicate Uniform(batch: Batch, reason: string, names: string) {
    && batch != map[]
    && (forall k :: k in batch ==> batch[k].event.reason == reason && NamesText(batch, k) == names)
    && (AllCompliant(batch) || forall k :: k in batch ==> !batch[k].event.compliant)
  }

  /** The namespaces of the objects; those of the cluster have none. */
  ghost function Places(batch: Batch): set<string> {
    set k | k in batch && Cut(k).0 != "" :: Cut(k).0
  }

  /** Where something was found, as it is said at the end of a message. */
  function Where(places: seq<string>): string {
    if places == [] then ""
    else if |places| == 1 then " in namespace " + places[0]
    else " in namespaces: " + Join(places, ", ")
  }

  lemma {:induction false} UniformIsRelevant(batch: Batch, reason: string, names: string)
    requires Uniform(batch, reason, names)
    ensures Relevant(batch) == batch && Reasons(batch) == {reason} && NamesTexts(batch) == {names}
    ensures forall r :: WithReason(batch, r) == if r == reason then batch else map[]
  {
    var k :| k in batch;
    assert batch[k].event.reason in Reasons(batch) && NamesText(batch, k) in NamesTexts(batch);
    if !AllCompliant(batch) {
      assert Relevant(batch) == batch;
    }
    forall r
      ensures WithReason(batch, r) == if r == reason then batch else map[]
    {
      assert r != reason ==> WithReason(batch, r) == map[];
    }
  }

  lemma {:induction false} AllHave(batch: Batch, keys: seq<string>, names: string)
    requires forall k :: k in keys ==> k in batch && NamesText(batch, k) == names
    ensures Having(batch, keys, names) == keys
  {
    if keys != [] {
      var n := |keys| - 1;
      AllHave(batch, keys[..n], names);
      assert keys == keys[..n] + [keys[n]];
    }
  }

  /** Reasons that no event has say nothing. */
  lemma {:induction false} OtherReasonsSilent(c: Context, reasons: seq<string>, batch: Batch, reason: string,
                                              names: string)
    requires Uniform(batch, reason, names) && Distinct(reasons)
    ensures ReasonsText(c, reasons, batch) ==
      if reason in reasons then GroupText(c, reason, batch, Text("", "")) else Text("", "")
  {
    UniformIsRelevant(batch, reason, names);
    if reasons != [] {
      var n := |reasons| - 1;
      OtherReasonsSilent(c, reasons[..n], batch, reason, names);
      assert reasons == reasons[..n] + [reasons[n]];
      assert reasons[n] !in reasons[..n];
      if reasons[n] != reason {
        NothingSaid(c, reasons[n], ReasonsText(c, reasons[..n], batch));
      }
    }
  }

  lemma {:induction false} NothingSaid(c: Context, reason: string, before: Text)
    ensures GroupText(c, reason, map[], before) == before
  {
    assert NamesTexts(map[]) == {};
    NoneListed();
  }

  lemma {:induction false} UniformGroup(c: Context, reason: string, batch: Batch, names: string, w: Wording)
    requires Uniform(batch, reason, names) && names != "" && c.wording(reason) == Some(w)
    ensures GroupText(c, reason, batch, Text("", "")) ==
      Text(w.reason, c.sprintf(w.format + Where(Listed(Places(batch))), c.resource, " [" + names + "]"))
  {
    var keys := Listed(batch.Keys);
    UniformIsRelevant(batch, reason, names);
    ListedOne(names);
    assert forall k :: k in keys <==> k in SetOf(keys);
    AllHave(batch, keys, names);
    assert Namespaces(keys) == Places(batch);
    var f := Format(w.format, Listed(Places(batch)));
    WhereIs(w.format, Listed(Places(batch)));
    OneFormat(batch, w.format, keys, names);
    FormatsOfOne(c, f, names, w.reason);
  }

  lemma {:induction false} FormatsOfOne(c: Context, f: string, names: string, reason: string)
    requires names != ""
    ensures var byFormat := map[f := [names]];
      && SetOf(Listed(byFormat.Keys)) == byFormat.Keys
      && Combined(c, byFormat, Listed(byFormat.Keys), WithSeparator("")) == c.sprintf(f, c.resource, " [" + names + "]")
    ensures AddReason("", reason) == reason
  {
    ListedOne(f);
    assert map[f := [names]].Keys == {f};
    OneMessage(c, f, names);
  }

  lemma {:induction false} WhereIs(format: string, places: seq<string>)
    ensures Format(format, places) == format + Where(places)
  {
    JoinMeans(if places == [] then "" else places[0], [], ", ");
    if |places| == 1 {
      assert places == [places[0]];
    } else if places == [] {
      assert format + "" == format;
    } else {
      assert format + " in namespaces: " + Join(places, ", ") == format + (" in namespaces: " + Join(places, ", "));
    }
  }

  lemma {:induction false} OneFormat(batch: Batch, format: string, keys: seq<string>, names: string)
    requires Having(batch, keys, names) == keys
    ensures Formats(batch, format, keys, [names]) == map[Format(format, Listed(Namespaces(keys))) := [names]]
  {
    var texts := [names];
    assert texts[..0] == [] && texts[0] == names;
    assert Formats(batch, format, keys, texts[..0]) == map[];
    assert [] + texts == texts;
  }

  lemma {:induction false} OneMessage(c: Context, f: string, names: string)
    requires names != ""
    ensures Combined(c, map[f := [names]], [f], WithSeparator("")) == c.sprintf(f, c.resource, " [" + names + "]")
  {
    assert [f][..0] == [];
    SortOne(names);
    JoinMeans(names, [], ", ");
    assert Message(c, f, [names]) == c.sprintf(f, c.resource, " [" + names + "]");
    assert Combined(c, map[f := [names]], [], "") == "";
    var m := Message(c, f, [names]);
    assert "" + "" + m == m;
  }

  lemma {:induction false} SortOne(x: string)
    ensures Sort(ByString(), [x]) == [x]
  {
    SortPermutes(ByString(), [x]);
    var r := Sort(ByString(), [x]);
    assert |r| == 1 && r[0] in multiset(r);
  }

  /**
   * A batch whose events all have one of the known reasons, for objects of the same names: the message says it once,
   * with the names in brackets, and with the namespaces if there are any, in order.
   */
  lemma {:induction false} SaidOnce(sprintf: (string, string, string) -> string, resource: string, batch: Batch, i: nat,
                                    names: string)
    requires i < 8 && Uniform(batch, WORDINGS[i].0, names) && names != ""
    ensures StatusText.StatusText(Context(WordingOf, sprintf, resource), OrderedReasons(), batch) ==
      Text(WORDINGS[i].1, sprintf(WORDINGS[i].2 + Where(Listed(Places(batch))), resource, " [" + names + "]"))
  {
    var c := Context(WordingOf, sprintf, resource);
    var reason := WORDINGS[i].0;
    UniformIsRelevant(batch, reason, names);
    OrderIs(i);
    assert {reason} - SetOf(OrderedReasons()) == {};
    NoneListed();
    assert OrderedReasons() + [] == OrderedReasons();
    OrderIsDistinct();
    OtherReasonsSilent(c, OrderedReasons(), batch, reason, names);
    WordingIs(i);
    UniformGroup(c, reason, batch, names, Wording(WORDINGS[i].1, WORDINGS[i].2));
  }

  lemma {:induction false} NoneListed()
    ensures Listed({}) == []
  {
    AscendingUnique(Listed({}), []);
  }

  lemma {:induction false} OrderIsDistinct()
    ensures Distinct(OrderedReasons())
  {
    forall i, j | 0 <= i < j < 8
      ensures OrderedReasons()[i] != OrderedReasons()[j]
    {
      OrderIs(i);
      OrderIs(j);
      ReasonsApart(i, j);
    }
    OrderIs(0);
  }

  /** A reason without words of its own is said with the messages of its events, in the order of the objects' keys. */
  lemma {:induction false} SaidVerbatim(c: Context, reason: string, batch: Batch, names: string)
    requires Uniform(batch, reason, names) && c.wording(reason) == None
    ensures forall k :: k in Listed(batch.Keys) ==> k in batch
    ensures GroupText(c, reason, batch, Text("", "")) == Text(reason, Messages(batch, Listed(batch.Keys)))
  {
    var keys := Listed(batch.Keys);
    UniformIsRelevant(batch, reason, names);
    ListedOne(names);
    assert forall k :: k in keys <==> k in SetOf(keys);
    AllHave(batch, keys, names);
    var texts := [names];
    assert texts[..0] == [] && texts[0] == names;
    assert Verbatim(batch, keys, texts[..0], "") == "";
    assert "" + Messages(batch, keys) == Messages(batch, keys);
  }
}
