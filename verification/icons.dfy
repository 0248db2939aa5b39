/** The icon registry (src/iconRegistry.ts) and the two icon pickers: the
    current one over the registry (src/components/icon-picker.tsx) and the
    older one over every export of the icon library, capped at a hundred
    results (src/components/IconPicker.tsx). An icon component is a token
    naming the library export it stands for. */
module Icons {
  import opened Wrappers
  import Seqs
  import Text
  import opened Model

  /** What `getIconComponent` can hand back: one of the library's icon
      components, or a property that every JavaScript object inherits. */
  datatype Component = Lucide(name: string) | Inherited(name: string)

  /** The registry's keys, in the order the object literal lists them,
      one constant per line of the literal. */
  const ROW_1: seq<string> := ["Circle", "Star", "Heart", "Music", "Video", "Book"]
  const ROW_2: seq<string> := ["Briefcase", "Code", "Coffee", "Film", "Headphones", "Home", "Lightbulb", "Mail"]
  const ROW_3: seq<string> := ["MessageCircle", "Mic", "Monitor", "Mountain", "Palette", "Camera", "Rocket"]
  const ROW_4: seq<string> := ["ShoppingBag", "Sparkles", "Sword", "Target", "Tv", "Umbrella", "Zap"]
  const ROW_5: seq<string> := ["Apple", "Award", "Beaker", "Bell", "Bookmark", "Box", "Calendar"]
  const ROW_6: seq<string> := ["Clock", "Cloud", "Compass", "Cookie", "Crown", "Database", "Dumbbell", "Flag"]
  const ROW_7: seq<string> := ["Flame", "Gift", "Globe", "Hammer", "Hash", "Image", "Key"]
  const ROW_8: seq<string> := ["Layers", "Leaf", "Lock", "Map", "Megaphone", "Newspaper", "Package", "Paintbrush"]
  const ROW_9: seq<string> := ["Pencil", "Pizza", "Plane", "Radio", "Scissors", "Shield", "Smile", "Snowflake"]
  const ROW_10: seq<string> := ["Sun", "TrendingUp", "Trophy", "Truck", "Users", "Wallet", "Watch"]
  const ROW_11: seq<string> := ["Wifi", "Wind", "Wrench", "Youtube", "Beer", "Bike", "Bug", "Building", "Car", "Cake"]
  const ROW_12: seq<string> := ["Dog", "Droplet", "Egg", "Eye", "Feather", "Fish", "Gem", "Glasses"]
  const ROW_13: seq<string> := ["Guitar", "Lamp", "Moon", "Phone", "Pill", "Play", "Plug", "Printer"]
  const ROW_14: seq<string> := ["Shirt", "Skull", "Smartphone", "Speaker", "Trees", "Waves", "Wheat", "Wine"]

  const ICON_NAMES: seq<string> :=
    ROW_1 + ROW_2 + ROW_3 + ROW_4 + ROW_5 + ROW_6 + ROW_7 + ROW_8 + ROW_9 + ROW_10 + ROW_11 + ROW_12 + ROW_13 + ROW_14

  /** The properties every object inherits from `Object.prototype`, which a
      lookup by `[]` finds on the registry too: the standard methods, the
      `__proto__` accessor and the legacy `__define*`/`__lookup*` methods. */
  const OBJECT_PROTOTYPE_KEYS: seq<string> := [
    "constructor", "hasOwnProperty", "isPrototypeOf", "propertyIsEnumerable",
    "toLocaleString", "toString", "valueOf",
    "__proto__", "__defineGetter__", "__defineSetter__", "__lookupGetter__", "__lookupSetter__"
  ]

  /** The default form icon is a registry key, so the fallback is itself a
      registered icon. */
  lemma CircleRegistered()
    ensures DEFAULT_ICON in ICON_NAMES && ICON_NAMES[0] == DEFAULT_ICON
    ensures |ICON_NAMES| == 107
  {
    assert ROW_1[0] == "Circle";
  }

  /** The name starts with a capital letter. */
  predicate Capitalised(name: string) {
    |name| > 0 && 'A' <= name[0] <= 'Z'
  }

  /** Every registry key starts with a capital letter, and no inherited
      property of an object does, so none of them is a registry key. */
  lemma NamesCapitalised()
    ensures forall i :: 0 <= i < |ICON_NAMES| ==> Capitalised(ICON_NAMES[i])
    ensures forall k :: k in OBJECT_PROTOTYPE_KEYS ==> k !in ICON_NAMES
  {
    RowsCapitalisedUpper();
    RowsCapitalisedLower();
    AllCapitalisedConcat(ROW_1, ROW_2);
    AllCapitalisedConcat(ROW_1 + ROW_2, ROW_3);
    AllCapitalisedConcat(ROW_1 + ROW_2 + ROW_3, ROW_4);
    AllCapitalisedConcat(ROW_1 + ROW_2 + ROW_3 + ROW_4, ROW_5);
    AllCapitalisedConcat(ROW_1 + ROW_2 + ROW_3 + ROW_4 + ROW_5, ROW_6);
    AllCapitalisedConcat(ROW_1 + ROW_2 + ROW_3 + ROW_4 + ROW_5 + ROW_6, ROW_7);
    AllCapitalisedConcat(ROW_1 + ROW_2 + ROW_3 + ROW_4 + ROW_5 + ROW_6 + ROW_7, ROW_8);
    AllCapitalisedConcat(ROW_1 + ROW_2 + ROW_3 + ROW_4 + ROW_5 + ROW_6 + ROW_7 + ROW_8, ROW_9);
    AllCapitalisedConcat(ROW_1 + ROW_2 + ROW_3 + ROW_4 + ROW_5 + ROW_6 + ROW_7 + ROW_8 + ROW_9, ROW_10);
    AllCapitalisedConcat(ROW_1 + ROW_2 + ROW_3 + ROW_4 + ROW_5 + ROW_6 + ROW_7 + ROW_8 + ROW_9 + ROW_10, ROW_11);
    AllCapitalisedConcat(ROW_1 + ROW_2 + ROW_3 + ROW_4 + ROW_5 + ROW_6 + ROW_7 + ROW_8 + ROW_9 + ROW_10 + ROW_11, ROW_12);
    AllCapitalisedConcat(ROW_1 + ROW_2 + ROW_3 + ROW_4 + ROW_5 + ROW_6 + ROW_7 + ROW_8 + ROW_9 + ROW_10 + ROW_11 + ROW_12, ROW_13);
    AllCapitalisedConcat(ROW_1 + ROW_2 + ROW_3 + ROW_4 + ROW_5 + ROW_6 + ROW_7 + ROW_8 + ROW_9 + ROW_10 + ROW_11 + ROW_12 + ROW_13, ROW_14);
    assert AllCapitalised(ICON_NAMES);
    assert forall k :: k in OBJECT_PROTOTYPE_KEYS ==> !Capitalised(k);
  }

  /** Every name in the list starts with a capital letter. */
  predicate AllCapitalised(names: seq<string>) {
    forall i :: 0 <= i < |names| ==> Capitalised(names[i])
  }

  /** Joining two capitalised lists gives a capitalised list. */
  lemma {:induction false} AllCapitalisedConcat(a: seq<string>, b: seq<string>)
    requires AllCapitalised(a) && AllCapitalised(b)
    ensures AllCapitalised(a + b)
  {
    forall i | 0 <= i < |a + b| ensures Capitalised((a + b)[i]) {
      if i < |a| {
        assert (a + b)[i] == a[i];
      } else {
        assert (a + b)[i] == b[i - |a|];
      }
    }
  }

  /** The first seven rows of the registry are capitalised. */
  lemma RowsCapitalisedUpper()
    ensures AllCapitalised(ROW_1) && AllCapitalised(ROW_2) && AllCapitalised(ROW_3) && AllCapitalised(ROW_4)
    ensures AllCapitalised(ROW_5) && AllCapitalised(ROW_6) && AllCapitalised(ROW_7)
  {
  }

  /** The last seven rows of the registry are capitalised. */
  lemma RowsCapitalisedLower()
    ensures AllCapitalised(ROW_8) && AllCapitalised(ROW_9) && AllCapitalised(ROW_10) && AllCapitalised(ROW_11)
    ensures AllCapitalised(ROW_12) && AllCapitalised(ROW_13) && AllCapitalised(ROW_14)
  {
  }

  /** `ICON_MAP[name]`: the registered component for a key of the
      registry, nothing otherwise. */
  function Registered(name: string): (r: Option<Component>)
    ensures r.Some? <==> name in ICON_NAMES
    ensures r.Some? ==> r.value == Lucide(name)
  {
    if name in ICON_NAMES then Some(Lucide(name)) else None
  }

  /** `getIconComponent` as intended: the registered component, or `Circle`
      for a name the registry does not have. */
  function GetIconComponent(name: string): (r: Component)
    ensures r.Lucide? && r.name in ICON_NAMES
    ensures name in ICON_NAMES ==> r == Lucide(name)
    ensures name !in ICON_NAMES ==> r == Lucide(DEFAULT_ICON)
  {
    CircleRegistered();
    Registered(name).GetOr(Lucide(DEFAULT_ICON))
  }

  /** `ICON_MAP[iconName] || Circle` as written: the lookup also finds the
      properties the registry object inherits, and those are truthy. */
  function GetIconComponentAsWritten(name: string): (r: Component)
    ensures name in ICON_NAMES ==> r == Lucide(name)
    ensures name !in ICON_NAMES && name in OBJECT_PROTOTYPE_KEYS ==> r == Inherited(name)
    ensures name !in ICON_NAMES && name !in OBJECT_PROTOTYPE_KEYS ==> r == GetIconComponent(name)
  {
    if name in ICON_NAMES then Lucide(name)
    else if name in OBJECT_PROTOTYPE_KEYS then Inherited(name)
    else Lucide(DEFAULT_ICON)
  }

  /** A category whose icon is `toString` (possible through an import, which
      does not check icons) gets no icon component and no fallback. */
  lemma InheritedKeyEscapesFallback()
    ensures GetIconComponentAsWritten("toString") == Inherited("toString")
    ensures GetIconComponent("toString") == Lucide(DEFAULT_ICON)
  {
    assert OBJECT_PROTOTYPE_KEYS[5] == "toString";
    NamesCapitalised();
  }

  /** The two lookups agree on every name an object does not inherit. */
  lemma LookupsAgreeOnOwnNames(name: string)
    requires name !in OBJECT_PROTOTYPE_KEYS
    ensures GetIconComponentAsWritten(name) == GetIconComponent(name)
  {
  }

  /** One entry of `ICON_LIST`. */
  datatype IconEntry = IconEntry(name: string, component: Component)

  /** `ICON_LIST`: one entry per registry key, in key order, each with the
      component registered under its name. */
  function IconList(): (r: seq<IconEntry>)
    ensures |r| == |ICON_NAMES|
    ensures forall i :: 0 <= i < |r| ==> r[i].name == ICON_NAMES[i] && Registered(r[i].name) == Some(r[i].component)
  {
    seq(|ICON_NAMES|, i requires 0 <= i < |ICON_NAMES| => IconEntry(ICON_NAMES[i], Lucide(ICON_NAMES[i])))
  }

  /** The entry's name matches the search query. */
  function EntryMatches(query: string): IconEntry -> bool {
    (e: IconEntry) => Text.MatchesQuery(e.name, query)
  }

  /** `filteredIcons` of the current picker: the whole list for an empty
      query, otherwise the entries whose name contains the query, ignoring
      case, in list order. */
  function FilteredIcons(query: string): (r: seq<IconEntry>)
    ensures query == "" ==> r == IconList()
    ensures forall e :: e in r <==> e in IconList() && Text.MatchesQuery(e.name, query)
    ensures Seqs.IsSubseq(r, IconList())
  {
    var all := IconList();
    if query == "" then
      forall e | e in all ensures Text.MatchesQuery(e.name, query) {
        Text.EmptyQueryMatchesAll(e.name);
      }
      Seqs.SubseqRefl(all);
      all
    else
      Seqs.FilterSubseq(all, EntryMatches(query));
      Seqs.Filter(all, EntryMatches(query))
  }

  /** The empty-query shortcut changes nothing: an empty query matches
      every name, so the result is always the filtered list. */
  lemma FilteredIconsIsFilter(query: string)
    ensures FilteredIcons(query) == Seqs.Filter(IconList(), EntryMatches(query))
  {
    if query == "" {
      var all := IconList();
      forall i | 0 <= i < |all| ensures EntryMatches(query)(all[i]) {
        Text.EmptyQueryMatchesAll(all[i].name);
      }
      Seqs.FilterAll(all, EntryMatches(query));
    }
  }

  /** An icon button is outlined exactly when it is the chosen icon; the
      footer shows "No icons found" exactly for an empty result, and the
      count noun is plural unless exactly one icon shows. */
  function PickerView(shown: seq<IconEntry>, selectedIcon: string): (r: (seq<bool>, bool, string))
    ensures |r.0| == |shown|
    ensures forall i :: 0 <= i < |shown| ==> (r.0[i] <==> shown[i].name == selectedIcon)
    ensures r.1 <==> |shown| == 0
    ensures r.2 == "icon" <==> |shown| == 1
    ensures |shown| != 1 ==> r.2 == "icons"
  {
    (seq(|shown|, i requires 0 <= i < |shown| => shown[i].name == selectedIcon),
     |shown| == 0,
     "icon" + Text.PluralSuffix(|shown|))
  }

  /** One export of the icon library: its key and whether it is a function. */
  datatype Export = Export(key: string, isFunction: bool)

  /** `iconNames` of the older picker: the library's function exports other
      than `default`, in export order. */
  function IconNames(exports: seq<Export>): (r: seq<string>)
    ensures "default" !in r
    ensures forall k :: k in r <==> exists i :: 0 <= i < |exports| && exports[i].key == k && k != "default" && exports[i].isFunction
    decreases |exports|
  {
    if |exports| == 0 then []
    else
      var rest := IconNames(exports[1..]);
      var e := exports[0];
      assert forall i :: 0 < i < |exports| ==> exports[i] == exports[1..][i - 1];
      (if e.key != "default" && e.isFunction then [e.key] else []) + rest
  }

  /** One export at a time: a function export other than `default` puts its
      key in front of the names of the rest. */
  lemma {:induction false} IconNamesCons(e: Export, rest: seq<Export>)
    ensures IconNames([e] + rest) == (if e.key != "default" && e.isFunction then [e.key] else []) + IconNames(rest)
  {
    assert ([e] + rest)[0] == e;
    assert ([e] + rest)[1..] == rest;
  }

  /** The names keep the export order and every occurrence: the names of
      two export tables in a row are the names of the first, then those of
      the second. */
  lemma {:induction false} IconNamesConcat(a: seq<Export>, b: seq<Export>)
    ensures IconNames(a + b) == IconNames(a) + IconNames(b)
    decreases |a|
  {
    if |a| == 0 {
      assert a + b == b;
    } else {
      var e, rest := a[0], a[1..];
      var h := if e.key != "default" && e.isFunction then [e.key] else [];
      assert a == [e] + rest;
      Seqs.ConcatAssoc([e], rest, b);
      assert a + b == [e] + (rest + b);
      calc {
        IconNames(a + b);
        { IconNamesCons(e, rest + b); }
        h + IconNames(rest + b);
        { IconNamesConcat(rest, b); }
        h + (IconNames(rest) + IconNames(b));
        { Seqs.ConcatAssoc(h, IconNames(rest), IconNames(b)); }
        (h + IconNames(rest)) + IconNames(b);
        { IconNamesCons(e, rest); }
        IconNames(a) + IconNames(b);
      }
    }
  }

  /** The largest number of icons the older picker shows. */
  const MAX_SHOWN: nat := 100

  /** The name matches the search query. */
  function NameMatches(query: string): string -> bool {
    (n: string) => Text.MatchesQuery(n, query)
  }

  /** `filteredIcons` of the older picker: the first hundred names for an
      empty query, otherwise the first hundred matching names, in order. */
  function FilteredIconNames(names: seq<string>, query: string): (r: seq<string>)
    ensures |r| <= MAX_SHOWN
    ensures query == "" ==> r == names[..if |names| < MAX_SHOWN then |names| else MAX_SHOWN]
    ensures query != "" ==> r <= Seqs.Filter(names, NameMatches(query))
    ensures query != "" ==> |r| == if |Seqs.Filter(names, NameMatches(query))| < MAX_SHOWN
                                   then |Seqs.Filter(names, NameMatches(query))| else MAX_SHOWN
  {
    var matching := if query == "" then names else Seqs.Filter(names, NameMatches(query));
    matching[..if |matching| < MAX_SHOWN then |matching| else MAX_SHOWN]
  }

  /** Every name the older picker shows matches the query and is a
      candidate; `default` never shows. */
  lemma ShownNamesMatch(exports: seq<Export>, query: string)
    ensures var r := FilteredIconNames(IconNames(exports), query);
            forall n :: n in r ==> n in IconNames(exports) && n != "default" && Text.MatchesQuery(n, query)
  {
    var names := IconNames(exports);
    var r := FilteredIconNames(names, query);
    forall n | n in r ensures n in names && Text.MatchesQuery(n, query) {
      if query == "" {
        Text.EmptyQueryMatchesAll(n);
      } else {
        var f := Seqs.Filter(names, NameMatches(query));
        assert n in f;
      }
    }
  }
}
