/**
 * The `Departamentos` page picks an icon and a colour for a department by
 * scanning two keyword tables in declaration order and taking the first
 * keyword that occurs in the lower-cased department name.
 */
module Departments {
  import opened Wrappers
  import opened JsString

  datatype Icon = Baby | Users | Heart | Music | Globe | BookOpen | Mic2

  /** `Object.entries(iconMap)`, in declaration order, `default` last. */
  const IconMap: seq<(string, Icon)> :=
    [("infantil", Baby), ("jovens", Users), ("mulheres", Heart), ("homens", Users),
     ("louvor", Music), ("missoes", Globe), ("escola", BookOpen), ("oracao", Heart),
     ("evangelismo", Mic2), ("default", Users)]

  /** `Object.entries(colorMap)`, in declaration order, `default` last. */
  const ColorMap: seq<(string, string)> :=
    [("infantil", "from-pink-500 to-rose-500"), ("jovens", "from-blue-500 to-indigo-500"),
     ("mulheres", "from-purple-500 to-violet-500"), ("homens", "from-slate-600 to-gray-700"),
     ("louvor", "from-amber-500 to-orange-500"), ("missoes", "from-emerald-500 to-teal-500"),
     ("escola", "from-cyan-500 to-blue-500"), ("oracao", "from-red-500 to-rose-500"),
     ("evangelismo", "from-green-500 to-emerald-500"), ("default", "from-gray-500 to-gray-600")]

  function Keys<V>(entries: seq<(string, V)>): (r: seq<string>)
    ensures |r| == |entries| && forall i :: 0 <= i < |r| ==> r[i] == entries[i].0
  {
    if entries == [] then [] else [entries[0].0] + Keys(entries[1..])
  }

  /** `map.default` (the entry with key `default`); `None` if the table had none. */
  function Lookup<V>(entries: seq<(string, V)>, key: string): Option<V> {
    if entries == [] then None
    else if entries[0].0 == key then Some(entries[0].1)
    else Lookup(entries[1..], key)
  }

  /** `name?.toLowerCase() || ''`. */
  function LowerName(name: Option<string>): string {
    if name.None? then "" else Lower(name.value)
  }

  /** The position of the first keyword that occurs in `s`, or -1 when none does. */
  function FirstMatch(keys: seq<string>, s: string): (k: int)
    ensures -1 <= k < |keys|
    ensures k >= 0 ==> Includes(s, keys[k]) && forall j :: 0 <= j < k ==> !Includes(s, keys[j])
    ensures k < 0 ==> forall j :: 0 <= j < |keys| ==> !Includes(s, keys[j])
  {
    if keys == [] then -1
    else if Includes(s, keys[0]) then 0
    else
      var k := FirstMatch(keys[1..], s);
      if k < 0 then -1 else k + 1
  }

  /** The value of the first entry whose keyword occurs in `s`, or `fallback`. */
  function MatchValue<V>(entries: seq<(string, V)>, s: string, fallback: V): V {
    var k := FirstMatch(Keys(entries), s);
    if k >= 0 then entries[k].1 else fallback
  }

  /**
   * `for (const [key, value] of Object.entries(map)) if (s.includes(key)) return value;
   * return fallback`: the scan both lookups run.
   */
  method ScanEntries<V>(entries: seq<(string, V)>, s: string, fallback: V) returns (v: V)
    ensures v == MatchValue(entries, s, fallback)
  {
    var i := 0;
    while i < |entries|
      invariant 0 <= i <= |entries|
      invariant forall j :: 0 <= j < i ==> !Includes(s, entries[j].0)
    {
      var (key, value) := entries[i];
      if Includes(s, key) {
        return value;
      }
      i := i + 1;
    }
    return fallback;
  }

  /** The value a table gives a department called `name`, its `default` entry when no keyword occurs. */
  function PickFor<V>(entries: seq<(string, V)>, name: Option<string>): V
    requires Lookup(entries, "default").Some?
  {
    MatchValue(entries, LowerName(name), Lookup(entries, "default").value)
  }

  /** The icon the page shows for a department called `name`. */
  function IconFor(name: Option<string>): Icon {
    IconDefault();
    PickFor(IconMap, name)
  }

  /** The colour classes the page uses for a department called `name`. */
  function ColorFor(name: Option<string>): string {
    ColorDefault();
    PickFor(ColorMap, name)
  }

  /** `getIconComponent(name)`. */
  method GetIconComponent(name: Option<string>) returns (icon: Icon)
    ensures icon == IconFor(name)
  {
    var lowerName := LowerName(name);
    IconDefault();
    icon := ScanEntries(IconMap, lowerName, Lookup(IconMap, "default").value);
  }

  /** `getColorClass(name)`. */
  method GetColorClass(name: Option<string>) returns (color: string)
    ensures color == ColorFor(name)
  {
    var lowerName := LowerName(name);
    ColorDefault();
    color := ScanEntries(ColorMap, lowerName, Lookup(ColorMap, "default").value);
  }

  /** Both tables list the same keywords in the same order. */
  lemma SameKeys()
    ensures Keys(IconMap) == Keys(ColorMap)
  {
    assert |IconMap| == |ColorMap| == 10;
    forall i | 0 <= i < 10 ensures IconMap[i].0 == ColorMap[i].0 {
    }
    SameKeysOf(IconMap, ColorMap);
  }

  lemma SameKeysOf<A, B>(a: seq<(string, A)>, b: seq<(string, B)>)
    requires |a| == |b| && forall i :: 0 <= i < |a| ==> a[i].0 == b[i].0
    ensures Keys(a) == Keys(b)
  {
  }

  /** The `default` entry of the icon table. */
  lemma IconDefault()
    ensures Lookup(IconMap, "default") == Some(Users)
  {
    DefaultIsLast(IconMap);
  }

  /** The `default` entry of the colour table. */
  lemma ColorDefault()
    ensures Lookup(ColorMap, "default") == Some("from-gray-500 to-gray-600")
  {
    DefaultIsLast(ColorMap);
  }

  /** In a table whose only `default` key is the last, `default` looks up the last value. */
  lemma {:induction false} DefaultIsLast<V>(entries: seq<(string, V)>)
    requires |entries| > 0 && entries[|entries| - 1].0 == "default"
    requires forall i :: 0 <= i < |entries| - 1 ==> entries[i].0 != "default"
    ensures Lookup(entries, "default") == Some(entries[|entries| - 1].1)
    decreases |entries|
  {
    if |entries| > 1 {
      DefaultIsLast(entries[1..]);
    }
  }

  /** An icon and a colour are always chosen by the same keyword (or both by the default). */
  lemma IconAndColorAgree(name: Option<string>)
    ensures var k := FirstMatch(Keys(IconMap), LowerName(name));
            && k == FirstMatch(Keys(ColorMap), LowerName(name))
            && IconFor(name) == (if k >= 0 then IconMap[k].1 else Users)
            && ColorFor(name) == (if k >= 0 then ColorMap[k].1 else "from-gray-500 to-gray-600")
  {
    SameKeys();
    IconDefault();
    ColorDefault();
  }

  /** No keyword occurs in the empty string. */
  lemma NothingMatchesEmpty<V>(entries: seq<(string, V)>)
    requires forall i :: 0 <= i < |entries| ==> entries[i].0 != ""
    ensures forall fallback :: MatchValue(entries, "", fallback) == fallback
  {
    var keys := Keys(entries);
    forall j | 0 <= j < |keys| ensures !Includes("", keys[j]) {
      EmptyIncludesOnlyEmpty(keys[j]);
    }
  }

  /** A missing or empty name gets the default icon and colour. */
  lemma NoNameGivesDefault(name: Option<string>)
    requires name.None? || name == Some("")
    ensures IconFor(name) == Users && ColorFor(name) == "from-gray-500 to-gray-600"
  {
    IconKeysNonEmpty();
    IconDefault();
    NoNamePick(IconMap, name);
    ColorKeysNonEmpty();
    ColorDefault();
    NoNamePick(ColorMap, name);
  }

  /** A table whose keywords are all non-empty gives a missing or empty name its `default` entry. */
  lemma NoNamePick<V>(entries: seq<(string, V)>, name: Option<string>)
    requires name.None? || name == Some("")
    requires Lookup(entries, "default").Some?
    requires forall i :: 0 <= i < |entries| ==> entries[i].0 != ""
    ensures PickFor(entries, name) == Lookup(entries, "default").value
  {
    assert LowerName(name) == "";
    NothingMatchesEmpty(entries);
  }

  lemma IconKeysNonEmpty()
    ensures forall i :: 0 <= i < |IconMap| ==> IconMap[i].0 != ""
  {
    forall i | 0 <= i < 10 ensures IconMap[i].0 != "" {
    }
  }

  lemma ColorKeysNonEmpty()
    ensures forall i :: 0 <= i < |ColorMap| ==> ColorMap[i].0 != ""
  {
    forall i | 0 <= i < 10 ensures ColorMap[i].0 != "" {
    }
  }

  /** The icon is always one of the table's own values. */
  lemma IconIsTableValue(name: Option<string>)
    ensures exists k :: 0 <= k < |IconMap| && IconFor(name) == IconMap[k].1
  {
    IconDefault();
    var k := FirstMatch(Keys(IconMap), LowerName(name));
    var w := if k >= 0 then k else 9;
    assert IconFor(name) == IconMap[w].1;
  }

  /** The colour is always one of the table's own values. */
  lemma ColorIsTableValue(name: Option<string>)
    ensures exists k :: 0 <= k < |ColorMap| && ColorFor(name) == ColorMap[k].1
  {
    ColorDefault();
    var k := FirstMatch(Keys(ColorMap), LowerName(name));
    var w := if k >= 0 then k else 9;
    assert ColorFor(name) == ColorMap[w].1;
  }

  /** Matching ignores letter case: names equal up to case get the same icon and colour. */
  lemma CaseInsensitive(a: string, b: string)
    requires Lower(a) == Lower(b)
    ensures IconFor(Some(a)) == IconFor(Some(b)) && ColorFor(Some(a)) == ColorFor(Some(b))
  {
  }

  /**
   * When two keywords occur in a name, the entry picked is never the later of
   * them: the scan stops at the first keyword that occurs, for the icon and the
   * colour alike.
   */
  lemma EarlierKeywordWins(name: Option<string>, i: nat, j: nat)
    requires i < j < |IconMap|
    requires Includes(LowerName(name), IconMap[i].0) && Includes(LowerName(name), IconMap[j].0)
    ensures var k := FirstMatch(Keys(IconMap), LowerName(name));
            && 0 <= k <= i
            && IconFor(name) == IconMap[k].1 && ColorFor(name) == ColorMap[k].1
  {
    SameKeys();
    IconDefault();
    ColorDefault();
    EarlierPick(IconMap, name, i, j);
    EarlierPick(ColorMap, name, i, j);
  }

  lemma EarlierPick<V>(entries: seq<(string, V)>, name: Option<string>, i: nat, j: nat)
    requires i < j < |entries| && Lookup(entries, "default").Some?
    requires Includes(LowerName(name), entries[i].0) && Includes(LowerName(name), entries[j].0)
    ensures var k := FirstMatch(Keys(entries), LowerName(name));
            0 <= k <= i && PickFor(entries, name) == entries[k].1
  {
    var keys := Keys(entries);
    assert keys[i] == entries[i].0;
  }

  /**
   * "Jovens e Mulheres" (any name that lower-cases to "jovens e mulheres")
   * contains both `jovens` and `mulheres`; `jovens` is declared first and wins.
   */
  lemma FirstKeywordWins(name: Option<string>)
    requires LowerName(name) == "jovens e mulheres"
    ensures Includes(LowerName(name), "jovens") && Includes(LowerName(name), "mulheres")
    ensures IconFor(name) == Users
    ensures ColorFor(name) == "from-blue-500 to-indigo-500"
  {
    ExampleMatches(LowerName(name));
    IconDefault();
    ColorDefault();
    TableHeads();
    SecondKeywordPick(IconMap, name);
    SecondKeywordPick(ColorMap, name);
  }

  /** Both tables start with `infantil`, then `jovens`. */
  lemma TableHeads()
    ensures |IconMap| >= 2 && IconMap[0].0 == "infantil" && IconMap[1] == ("jovens", Users)
    ensures |ColorMap| >= 2 && ColorMap[0].0 == "infantil" && ColorMap[1] == ("jovens", "from-blue-500 to-indigo-500")
  {
  }

  /** When the first keyword does not occur and the second does, the second entry is picked. */
  lemma SecondKeywordPick<V>(entries: seq<(string, V)>, name: Option<string>)
    requires |entries| >= 2 && Lookup(entries, "default").Some?
    requires !Includes(LowerName(name), entries[0].0) && Includes(LowerName(name), entries[1].0)
    ensures PickFor(entries, name) == entries[1].1
  {
    var k := FirstMatch(Keys(entries), LowerName(name));
    assert k == 1;
  }

  lemma ExampleMatches(s: string)
    requires s == "jovens e mulheres"
    ensures !Includes(s, "infantil") && Includes(s, "jovens") && Includes(s, "mulheres")
  {
    NoLetterI(s);
    assert "infantil"[0] == 'i';
    NotIncludesFirstChar(s, "infantil");
    assert StartsWith(s, "jovens");
    assert s[9..17] == "mulheres";
    IncludesAt(s, "mulheres", 9);
  }

  lemma NoLetterI(u: string)
    requires u == "jovens e mulheres"
    ensures 'i' !in u
  {
    forall k | 0 <= k < |u| ensures u[k] != 'i' {
    }
  }
}
