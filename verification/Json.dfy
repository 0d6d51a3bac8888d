/** Untyped JSON values, and the Go library calls the comparison code makes on them. */
module Json {
  import opened Sorting

  datatype Option<+T> = None | Some(value: T)

  datatype Json =
    | Null
    | Bool(b: bool)
    | Num(n: real)
    | Str(s: string)
    | List(items: seq<Json>)
    | Map(fields: map<string, Json>)

  /** `reflect.Zero` of the value's Go type; a nil map or slice prints like an empty one. */
  function Zero(v: Json): Json {
    match v
    case Null => Null
    case Bool(_) => Bool(false)
    case Num(_) => Num(0.0)
    case Str(_) => Str("")
    case List(_) => List([])
    case Map(_) => Map(map[])
  }

  /** A Go map read: the nil interface when the key is absent. */
  function Lookup(m: Json, k: string): Json
    requires m.Map?
  {
    if k in m.fields then m.fields[k] else Null
  }

  function LookupOption(m: Json, k: string): Option<Json>
    requires m.Map?
  {
    if k in m.fields then Some(m.fields[k]) else None
  }

  /**
   * `sprint` is `fmt.Sprint`, `quantity` is `resource.ParseQuantity` (None on a parse error) read as
   * the amount it denotes, and `sortList` is `sort.Slice` by the text `sortAndSprint` gives each item.
   */
  datatype GoLib = GoLib(
    sprint: Json -> string,
    quantity: string -> Option<real>,
    sortAndSprint: Json -> string,
    sortList: seq<Json> -> seq<Json>)

  function ByText(text: Json -> string): (Json, Json) -> bool {
    (x, y) => StrLeq(text(x), text(y))
  }

  ghost predicate PrintsStringsVerbatim(g: GoLib) {
    forall s :: g.sprint(Str(s)) == s
  }

  /** Any sorting algorithm will do: nothing is assumed about how ties are ordered. */
  ghost predicate SortsByText(g: GoLib) {
    forall l: seq<Json> ::
      multiset(g.sortList(l)) == multiset(l) && SortedBy(ByText(g.sortAndSprint), g.sortList(l))
  }

  /** Strings are sorted as themselves. */
  ghost predicate SortsStringsVerbatim(g: GoLib) {
    forall s :: g.sortAndSprint(Str(s)) == s
  }

  ghost predicate ValidLib(g: GoLib) {
    PrintsStringsVerbatim(g) && SortsByText(g) && SortsStringsVerbatim(g)
  }

  type Lib = g: GoLib | ValidLib(g) ghost witness (SampleLibIsValid(); SampleLib())

  function SampleText(v: Json): string {
    if v.Str? then v.s else ""
  }

  /** A library that satisfies the laws, so they are consistent. */
  function SampleLib(): GoLib {
    GoLib(SampleText, _ => None, SampleText, l => Sort(ByText(SampleText), l))
  }

  lemma {:induction false} ByTextIsTotal(text: Json -> string)
    ensures TotalPreorder(ByText(text))
  {
    var leq := ByText(text);
    forall x, y
      ensures leq(x, y) || leq(y, x)
    {
      StrLeqTotal(text(x), text(y));
    }
    forall x, y, z | leq(x, y) && leq(y, z)
      ensures leq(x, z)
    {
      StrLeqTransitive(text(x), text(y), text(z));
    }
  }

  lemma {:induction false} SampleLibIsValid()
    ensures ValidLib(SampleLib())
  {
    var g := SampleLib();
    forall l: seq<Json>
      ensures multiset(g.sortList(l)) == multiset(l) && SortedBy(ByText(g.sortAndSprint), g.sortList(l))
    {
      ByTextIsTotal(SampleText);
      SortPermutes(ByText(SampleText), l);
      SortSorts(ByText(SampleText), l);
    }
  }

  lemma {:induction false} SortListPermutes(g: Lib, l: seq<Json>)
    ensures |g.sortList(l)| == |l|
    ensures multiset(g.sortList(l)) == multiset(l)
    ensures forall x :: x in g.sortList(l) <==> x in l
  {
    PermutationMembers(g.sortList(l), l);
  }
}
