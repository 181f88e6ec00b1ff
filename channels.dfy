/** Classification of broadcaster names into "national network + TOKYO MX",
    "local station" and "other broadcast" (BS/CS/streaming), by keyword substrings,
    and the grouping of a list of names into the three categories. */
module ChannelCategories {
  import opened Common
  import opened Text
  import TextOrder

  datatype Category = National | Local | Other

  /** A name containing any of these is national. */
  const NationalKeywords: seq<string> := [
    "日本テレビ", "NTV", "TBS", "テレビ朝日", "TV朝日", "フジテレビ", "フジ",
    "テレビ東京", "テレ東", "TV東京", "TOKYO MX", "東京MX", "MX",
    "NHK総合", "NHK Eテレ", "NHK教育", "NHK・総合", "NHK・Eテレ"
  ]

  /** A name that is not national and contains any of these is "other". */
  const OtherKeywords: seq<string> := [
    "BS", "CS", "アニマックス", "アニメシアター", "キッズステーション", "dアニメ",
    "dアニメストア", "Abema", "ABEMA", "Netflix", "Amazon", "U-NEXT",
    "バンダイチャンネル", "YouTube", "Youtube", "配信", "ネット", "Disney",
    "ディズニー", "Hulu", "ひかりTV", "テレ朝", "BS日テレ", "BSフジ", "BS11",
    "WOWOW", "AT-X", "ニコニコ", "ニコニコ動画"
  ]

  /** Some keyword of `kws` occurs in `name`. */
  predicate Mentions(name: string, kws: seq<string>) {
    exists k :: 0 <= k < |kws| && Includes(name, kws[k])
  }

  /** The category of a channel name: its trimmed form is tested against the
      national keywords first, then the other keywords; anything else is local. */
  function GetChannelCategory(channelName: string): Category {
    var name := Trim(channelName);
    if IncludesAny(name, NationalKeywords) then National
    else if IncludesAny(name, OtherKeywords) then Other
    else Local
  }

  /** National exactly when the trimmed name contains a national keyword; other
      exactly when it contains none of those but some other keyword; local when it
      contains no keyword of either table. */
  lemma CategoryByKeywords(channelName: string)
    ensures var c := GetChannelCategory(channelName);
            var name := Trim(channelName);
            && (c == National <==> Mentions(name, NationalKeywords))
            && (c == Other <==> !Mentions(name, NationalKeywords) && Mentions(name, OtherKeywords))
            && (c == Local <==> !Mentions(name, NationalKeywords) && !Mentions(name, OtherKeywords))
  {
  }

  /** White space around a name does not change its category. */
  lemma CategoryIgnoresSurroundingSpace(p: string, name: string, q: string)
    requires AllSpace(p) && AllSpace(q)
    ensures GetChannelCategory(p + name + q) == GetChannelCategory(name)
  {
    TrimIgnoresSurroundingSpace(p, name, q);
  }

  /** A name whose trimmed form contains a national keyword is national, whatever
      other keywords it contains. */
  lemma NationalFirst(channelName: string, k: nat)
    requires k < |NationalKeywords| && Includes(Trim(channelName), NationalKeywords[k])
    ensures GetChannelCategory(channelName) == National
  {
  }

  lemma KeywordTables()
    ensures |NationalKeywords| == 18 && NationalKeywords[6] == "フジ"
    ensures |OtherKeywords| == 29 && OtherKeywords[0] == "BS" && OtherKeywords[23] == "BSフジ"
  {
  }

  lemma BSFujiSpelling(name: string)
    requires |name| == 4 && name[0] == 'B' && name[1] == 'S' && name[2] == 'フ' && name[3] == 'ジ'
    ensures Trim(name) == name
    ensures Includes(name, "フジ") && Includes(name, "BS")
  {
    TrimOfUnpadded(name);
    assert OccursAt(name, "フジ", 2) by { assert name[2..4] == "フジ"; }
    assert OccursAt(name, "BS", 0) by { assert name[0..2] == "BS"; }
  }

  /** A name containing both "フジ" and "BS" is national, although "BS" is an
      other keyword. */
  lemma NationalTakesPrecedence(name: string)
    requires Includes(Trim(name), "フジ") && Includes(Trim(name), "BS")
    ensures Mentions(Trim(name), OtherKeywords)
    ensures GetChannelCategory(name) == National
  {
    KeywordTables();
    NationalFirst(name, 6);
  }

  /** "BSフジ", itself listed among the other keywords, is national because it
      contains "フジ" and the national keywords are tested first. */
  lemma BSFujiIsNational(name: string)
    requires |name| == 4 && name[0] == 'B' && name[1] == 'S' && name[2] == 'フ' && name[3] == 'ジ'
    ensures GetChannelCategory(name) == National
  {
    BSFujiSpelling(name);
    NationalTakesPrecedence(name);
  }

  // ---------------------------------------------------------------------------
  // Grouping

  /** The three groups, keyed by category. */
  datatype Groups = Groups(national: seq<string>, local: seq<string>, other: seq<string>)

  function Group(g: Groups, c: Category): seq<string> {
    match c
    case National => g.national
    case Local => g.local
    case Other => g.other
  }

  /** The names `classify` puts in category `c`. */
  function InCategory(classify: string -> Category, c: Category): string -> bool {
    name => classify(name) == c
  }

  /** What grouping by `classify` yields: per category, the names `classify` puts
      there, in ascending order, each occurrence kept. */
  function Grouped(names: seq<string>, classify: string -> Category): (g: Groups)
    ensures names == [] ==> g == Groups([], [], [])
  {
    Groups(TextOrder.Sort(Filter(names, InCategory(classify, National))),
           TextOrder.Sort(Filter(names, InCategory(classify, Local))),
           TextOrder.Sort(Filter(names, InCategory(classify, Other))))
  }

  /** Every name lands in the group of its category, as often as it occurs in
      the input, and in no other group. */
  lemma GroupCount(names: seq<string>, classify: string -> Category, c: Category, x: string)
    ensures multiset(Group(Grouped(names, classify), c))[x] == if classify(x) == c then multiset(names)[x] else 0
  {
    var kept := Filter(names, InCategory(classify, c));
    FilterIsSelection(names, InCategory(classify, c));
    assert Group(Grouped(names, classify), c) == TextOrder.Sort(kept);
    assert multiset(kept)[x] == if InCategory(classify, c)(x) then multiset(names)[x] else 0;
  }

  /** Each group is in ascending order. */
  lemma GroupsAscending(names: seq<string>, classify: string -> Category)
    ensures forall c :: TextOrder.Ascending(Group(Grouped(names, classify), c))
  {
    forall c ensures TextOrder.Ascending(Group(Grouped(names, classify), c)) {
      assert Group(Grouped(names, classify), c) == TextOrder.Sort(Filter(names, InCategory(classify, c)));
    }
  }

  /** The three groups together are a rearrangement of the input. */
  lemma GroupsPartition(names: seq<string>, classify: string -> Category)
    ensures var g := Grouped(names, classify);
            multiset(g.national) + multiset(g.local) + multiset(g.other) == multiset(names)
  {
    var g := Grouped(names, classify);
    forall x
      ensures (multiset(g.national) + multiset(g.local) + multiset(g.other))[x] == multiset(names)[x]
    {
      GroupCount(names, classify, National, x);
      GroupCount(names, classify, Local, x);
      GroupCount(names, classify, Other, x);
    }
  }

  /** A name is in a group exactly when it is in the input and of that category. */
  lemma GroupMembership(names: seq<string>, classify: string -> Category, c: Category, x: string)
    ensures x in Group(Grouped(names, classify), c) <==> x in names && classify(x) == c
  {
    GroupCount(names, classify, c, x);
  }

  /** Array.prototype.sort on one group. */
  method SortGroup(names: seq<string>) returns (sorted: seq<string>)
    ensures sorted == TextOrder.Sort(names)
  {
    var a := new string[|names|](i requires 0 <= i < |names| => names[i]);
    assert a[..] == names;
    TextOrder.SortInPlace(a);
    sorted := a[..];
  }

  /** The first loop of groupChannelsByCategory: push every name onto the group
      `classify` names for it. */
  method Bucket(names: seq<string>, classify: string -> Category)
    returns (national: seq<string>, local: seq<string>, other: seq<string>)
    ensures national == Filter(names, InCategory(classify, National))
    ensures local == Filter(names, InCategory(classify, Local))
    ensures other == Filter(names, InCategory(classify, Other))
  {
    national, local, other := [], [], [];
    for i := 0 to |names|
      invariant national == Filter(names[..i], InCategory(classify, National))
      invariant local == Filter(names[..i], InCategory(classify, Local))
      invariant other == Filter(names[..i], InCategory(classify, Other))
    {
      var name := names[i];
      assert names[..i + 1] == names[..i] + [name];
      FilterSnoc(names[..i], name, InCategory(classify, National));
      FilterSnoc(names[..i], name, InCategory(classify, Local));
      FilterSnoc(names[..i], name, InCategory(classify, Other));
      match classify(name)
      case National => national := national + [name];
      case Local => local := local + [name];
      case Other => other := other + [name];
    }
    assert names[..|names|] == names;
  }

  /** groupChannelsByCategory: bucket the names by category, then sort each group. */
  method GroupChannelsByCategory(channelNames: seq<string>) returns (g: Groups)
    ensures g == Grouped(channelNames, GetChannelCategory)
  {
    var national, local, other := Bucket(channelNames, GetChannelCategory);
    national := SortGroup(national);
    local := SortGroup(local);
    other := SortGroup(other);
    g := Groups(national, local, other);
  }
}
