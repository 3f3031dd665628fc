/** The per-page queries: which cached mentions belong to a page, how many
    there are, and how they fall into the configured buckets. */
module Filters {
  import opened Records
  import opened Sequences
  import opened Paths

  /** Bucket name to the `wm-property` values it collects (the `mentionTypes` option). */
  type MentionTypes = map<string, seq<string>>

  const DefaultMentionTypes: MentionTypes := map[
    "likes" := ["like-of"],
    "reposts" := ["repost-of"],
    "comments" := ["mention-of", "in-reply-to"]
  ]

  /** A value of the `pageAliases` option: a single path or a list of paths. */
  datatype AliasValue = One(alias: string) | Many(aliases: seq<string>)

  /** The `pageAliases` option as the entries `Object.keys(pageAliases)` enumerates,
      in that order (integer-like keys first, ascending, then the rest in
      insertion order). The list is taken in that order; it is not computed here. */
  type PageAliases = seq<(string, AliasValue)>

  /** Normalised page path to the normalised paths it also answers for. */
  type AliasTable = map<string, seq<string>>

  /** The alias list stored for one key: a single path counts as a one-element list. */
  function CleanedAlias(value: AliasValue): seq<string> {
    match value
    case One(alias) => [Normalise(alias)]
    case Many(aliases) => seq(|aliases|, i requires 0 <= i < |aliases| => Normalise(aliases[i]))
  }

  /** The table the configuration-time `reduce` leaves: keys written in order,
      so of two keys that normalise alike the later one wins. */
  function CleanedAliases(pageAliases: PageAliases): AliasTable {
    if pageAliases == [] then map[]
    else
      var last := |pageAliases| - 1;
      CleanedAliases(pageAliases[..last])[Normalise(pageAliases[last].0) := CleanedAlias(pageAliases[last].1)]
  }

  /** The `reduce` that fills the accumulator one key at a time. */
  method CleanAliases(pageAliases: PageAliases) returns (cleaned: AliasTable)
    ensures cleaned == CleanedAliases(pageAliases)
  {
    cleaned := map[];
    for i := 0 to |pageAliases|
      invariant cleaned == CleanedAliases(pageAliases[..i])
    {
      var (key, value) := pageAliases[i];
      cleaned := cleaned[Normalise(key) := CleanedAlias(value)];
      assert pageAliases[..i + 1][..i] == pageAliases[..i];
    }
    assert pageAliases[..|pageAliases|] == pageAliases;
  }

  /** A path is a key of the table exactly when some configured key normalises to it. */
  lemma {:induction false} CleanedAliasesKeys(pageAliases: PageAliases, path: string)
    ensures path in CleanedAliases(pageAliases)
        <==> exists i :: 0 <= i < |pageAliases| && Normalise(pageAliases[i].0) == path
  {
    if pageAliases != [] {
      var last := |pageAliases| - 1;
      var init := pageAliases[..last];
      var lastKey := Normalise(pageAliases[last].0);
      CleanedAliasesKeys(init, path);
      CleanedAliasesUpdate(pageAliases);
      assert CleanedAliases(pageAliases).Keys == CleanedAliases(init).Keys + {lastKey};
      if path == lastKey {
        assert 0 <= last < |pageAliases| && Normalise(pageAliases[last].0) == path;
      } else if path in CleanedAliases(init) {
        var i :| 0 <= i < |init| && Normalise(init[i].0) == path;
        assert pageAliases[i] == init[i];
        assert 0 <= i < |pageAliases| && Normalise(pageAliases[i].0) == path;
      } else {
        forall i | 0 <= i < |pageAliases| ensures Normalise(pageAliases[i].0) != path {
          if i < last {
            assert pageAliases[i] == init[i];
          }
        }
      }
    }
  }

  /** The aliases stored for a normalised key are those of the last configured
      key that normalises to it. */
  lemma {:induction false} CleanedAliasesLastWins(pageAliases: PageAliases, i: nat)
    requires i < |pageAliases|
    requires forall j :: i < j < |pageAliases| ==> Normalise(pageAliases[j].0) != Normalise(pageAliases[i].0)
    ensures Normalise(pageAliases[i].0) in CleanedAliases(pageAliases)
    ensures CleanedAliases(pageAliases)[Normalise(pageAliases[i].0)] == CleanedAlias(pageAliases[i].1)
  {
    var last := |pageAliases| - 1;
    CleanedAliasesUpdate(pageAliases);
    if i < last {
      var init := pageAliases[..last];
      var key := Normalise(pageAliases[i].0);
      assert init[i] == pageAliases[i];
      forall j | i < j < |init| ensures Normalise(init[j].0) != key {
        assert init[j] == pageAliases[j];
      }
      CleanedAliasesLastWins(init, i);
      var table := CleanedAliases(init);
      assert Normalise(pageAliases[last].0) != key;
      assert CleanedAliases(pageAliases)[key] == table[key];
    }
  }

  /** One step of the `reduce`: the last entry is written over the table of the others. */
  lemma CleanedAliasesUpdate(pageAliases: PageAliases)
    requires pageAliases != []
    ensures var last := |pageAliases| - 1;
      CleanedAliases(pageAliases)
      == CleanedAliases(pageAliases[..last])[Normalise(pageAliases[last].0) := CleanedAlias(pageAliases[last].1)]
  {
  }

  /** A string alias is treated as the one-element list holding it. */
  lemma SingleAliasIsList(alias: string)
    ensures CleanedAlias(One(alias)) == CleanedAlias(Many([alias]))
  {
  }

  /** What `filters(options)` captures: the buckets and the cleaned alias table. */
  datatype Filters = Filters(mentionTypes: MentionTypes, aliases: AliasTable)

  /** Configuration: the alias table is built once, here. An omitted option
      takes its default: the three standard buckets, and no aliases. */
  method MakeFilters(mentionTypes: MentionTypes := DefaultMentionTypes, pageAliases: PageAliases := [])
    returns (f: Filters)
    ensures f.mentionTypes == mentionTypes
    ensures forall path :: (path in f.aliases
        <==> exists i :: 0 <= i < |pageAliases| && Normalise(pageAliases[i].0) == path)
    ensures f.aliases == CleanedAliases(pageAliases)
  {
    var aliases := CleanAliases(pageAliases);
    f := Filters(mentionTypes, aliases);
    forall path ensures path in f.aliases
        <==> exists i :: 0 <= i < |pageAliases| && Normalise(pageAliases[i].0) == path {
      CleanedAliasesKeys(pageAliases, path);
    }
  }

  /** First test: the normalised target equals the normalised page path, or is
      one of the aliases of the page path. Aliases work in one direction only. */
  predicate PathMatches(aliases: AliasTable, pagePath: string, m: Mention) {
    var page := Normalise(pagePath);
    var target := Normalise(m.target);
    page == target || (page in aliases && target in aliases[page])
  }

  /** Second test: an author with a truthy name or a truthy url. */
  predicate HasAuthor(m: Mention) {
    m.author.Some? && (Truthy(m.author.value.name) || Truthy(m.author.value.url))
  }

  /** Third test: the property is in the flattened list of all buckets. */
  predicate IsKnownType(mentionTypes: MentionTypes, property: string) {
    exists bucket :: bucket in mentionTypes && property in mentionTypes[bucket]
  }

  /** All three tests together. */
  predicate Accepted(f: Filters, pagePath: string, m: Mention) {
    PathMatches(f.aliases, pagePath, m) && HasAuthor(m) && IsKnownType(f.mentionTypes, m.property)
  }

  function MatchesPage(f: Filters, pagePath: string): Mention -> bool {
    (m: Mention) => PathMatches(f.aliases, pagePath, m)
  }

  function HasKnownType(f: Filters): Mention -> bool {
    (m: Mention) => IsKnownType(f.mentionTypes, m.property)
  }

  function AcceptedFor(f: Filters, pagePath: string): Mention -> bool {
    (m: Mention) => Accepted(f, pagePath, m)
  }

  function InBucket(properties: seq<string>): Mention -> bool {
    (m: Mention) => m.property in properties
  }

  /** `filterWebmentions`: the three successive filters. */
  function FilterWebmentions(f: Filters, webmentions: seq<Mention>, pagePath: string): (r: seq<Mention>)
    ensures |r| <= |webmentions|
    ensures forall m :: m in r ==> m in webmentions && Accepted(f, pagePath, m)
    ensures forall m :: m in webmentions && Accepted(f, pagePath, m) ==> m in r
  {
    Filter(Filter(Filter(webmentions, MatchesPage(f, pagePath)), HasAuthor), HasKnownType(f))
  }

  /** The filter chain is a single filter by the conjunction of the three tests. */
  lemma FilterWebmentionsIsOneFilter(f: Filters, webmentions: seq<Mention>, pagePath: string)
    ensures FilterWebmentions(f, webmentions, pagePath) == Filter(webmentions, AcceptedFor(f, pagePath))
  {
    var authored := (m: Mention) => PathMatches(f.aliases, pagePath, m) && HasAuthor(m);
    FilterFusion(webmentions, MatchesPage(f, pagePath), HasAuthor, authored);
    FilterFusion(webmentions, authored, HasKnownType(f), AcceptedFor(f, pagePath));
  }

  /** `filterWebmentions` returns an order-preserving sub-list of its input
      that keeps every occurrence of each accepted mention and drops every
      rejected one. */
  lemma FilterWebmentionsSelects(f: Filters, webmentions: seq<Mention>, pagePath: string)
    ensures IsSubsequence(FilterWebmentions(f, webmentions, pagePath), webmentions)
    ensures forall m :: (multiset(FilterWebmentions(f, webmentions, pagePath))[m]
        == if Accepted(f, pagePath, m) then multiset(webmentions)[m] else 0)
  {
    FilterWebmentionsIsOneFilter(f, webmentions, pagePath);
    FilterIsSubsequence(webmentions, AcceptedFor(f, pagePath));
    forall m ensures multiset(FilterWebmentions(f, webmentions, pagePath))[m]
        == if Accepted(f, pagePath, m) then multiset(webmentions)[m] else 0 {
      FilterMultiplicity(webmentions, AcceptedFor(f, pagePath), m);
    }
  }

  /** A mention that fails any test is invisible: adding it anywhere changes
      neither the filtered list nor, hence, `count` or `mentions`. */
  lemma RejectedIsInvisible(f: Filters, before: seq<Mention>, m: Mention, after: seq<Mention>, pagePath: string)
    requires !Accepted(f, pagePath, m)
    ensures FilterWebmentions(f, before + [m] + after, pagePath) == FilterWebmentions(f, before + after, pagePath)
    ensures Count(f, before + [m] + after, pagePath) == Count(f, before + after, pagePath)
    ensures Grouped(f, before + [m] + after, pagePath) == Grouped(f, before + after, pagePath)
  {
    var keep := AcceptedFor(f, pagePath);
    FilterWebmentionsIsOneFilter(f, before + [m] + after, pagePath);
    FilterWebmentionsIsOneFilter(f, before + after, pagePath);
    assert Filter([m], keep) == [];
    calc {
      Filter(before + [m] + after, keep);
      { FilterAppend(before + [m], after, keep); }
      Filter(before + [m], keep) + Filter(after, keep);
      { FilterAppend(before, [m], keep); }
      Filter(before, keep) + Filter(after, keep);
      { FilterAppend(before, after, keep); }
      Filter(before + after, keep);
    }
  }

  /** Pages whose paths normalise alike select the same mentions. */
  lemma SameNormalisedPathSameMentions(f: Filters, webmentions: seq<Mention>, pagePath: string, otherPath: string)
    requires Normalise(pagePath) == Normalise(otherPath)
    ensures FilterWebmentions(f, webmentions, pagePath) == FilterWebmentions(f, webmentions, otherPath)
  {
    FilterExtensional(webmentions, MatchesPage(f, pagePath), MatchesPage(f, otherPath));
  }

  /** `count`: the number of mentions the page selects. */
  function Count(f: Filters, webmentions: seq<Mention>, pagePath: string): (n: nat)
    ensures n <= |webmentions|
  {
    |FilterWebmentions(f, webmentions, pagePath)|
  }

  /** A field of the object `mentions` returns. */
  datatype Field = Total(count: nat) | Group(mentions: seq<Mention>)

  /** The object `mentions` returns: `total` first, then one group per bucket,
      so a bucket named "total" overwrites the count. */
  function Grouped(f: Filters, webmentions: seq<Mention>, pagePath: string): map<string, Field> {
    GroupedFrom(f.mentionTypes, FilterWebmentions(f, webmentions, pagePath))
  }

  function GroupedFrom(mentionTypes: MentionTypes, filtered: seq<Mention>): map<string, Field> {
    map key | key in mentionTypes.Keys + {"total"} ::
      if key in mentionTypes then Group(Filter(filtered, InBucket(mentionTypes[key])))
      else Total(|filtered|)
  }

  /** `mentions`: the result object is filled one bucket at a time. The loop
      picks the buckets in an arbitrary order; the result does not depend on it. */
  method Mentions(f: Filters, webmentions: seq<Mention>, pagePath: string) returns (r: map<string, Field>)
    ensures r.Keys == f.mentionTypes.Keys + {"total"}
    ensures r == Grouped(f, webmentions, pagePath)
  {
    var filtered := FilterWebmentions(f, webmentions, pagePath);
    r := map["total" := Total(|filtered|)];
    var remaining := f.mentionTypes.Keys;
    while remaining != {}
      invariant remaining <= f.mentionTypes.Keys
      invariant r.Keys == (f.mentionTypes.Keys - remaining) + {"total"}
      invariant forall key :: key in r ==> (r[key] ==
        if key in f.mentionTypes && key !in remaining then Group(Filter(filtered, InBucket(f.mentionTypes[key])))
        else Total(|filtered|))
      decreases remaining
    {
      var key :| key in remaining;
      r := r[key := Group(Filter(filtered, InBucket(f.mentionTypes[key])))];
      remaining := remaining - {key};
    }
  }

  /** `total` agrees with `count` unless a bucket is itself named "total". */
  lemma TotalIsCount(f: Filters, webmentions: seq<Mention>, pagePath: string)
    ensures "total" !in f.mentionTypes ==> Grouped(f, webmentions, pagePath)["total"] == Total(Count(f, webmentions, pagePath))
    ensures "total" in f.mentionTypes ==> Grouped(f, webmentions, pagePath)["total"].Group?
  {
  }

  /** Each group is the order-preserving sub-list of the filtered mentions whose
      property its bucket lists, keeping every copy of such a mention; a
      property listed under two buckets puts the mention in both groups. */
  lemma GroupContents(f: Filters, webmentions: seq<Mention>, pagePath: string, bucket: string)
    requires bucket in f.mentionTypes
    ensures Grouped(f, webmentions, pagePath)[bucket].Group?
    ensures IsSubsequence(Grouped(f, webmentions, pagePath)[bucket].mentions, FilterWebmentions(f, webmentions, pagePath))
    ensures forall m :: (m in Grouped(f, webmentions, pagePath)[bucket].mentions
        <==> m in webmentions && Accepted(f, pagePath, m) && m.property in f.mentionTypes[bucket])
    ensures forall m :: (multiset(Grouped(f, webmentions, pagePath)[bucket].mentions)[m]
        == if m.property in f.mentionTypes[bucket] then multiset(FilterWebmentions(f, webmentions, pagePath))[m] else 0)
  {
    var filtered := FilterWebmentions(f, webmentions, pagePath);
    var inBucket := InBucket(f.mentionTypes[bucket]);
    FilterIsSubsequence(filtered, inBucket);
    forall m ensures multiset(Grouped(f, webmentions, pagePath)[bucket].mentions)[m]
        == if m.property in f.mentionTypes[bucket] then multiset(filtered)[m] else 0 {
      FilterMultiplicity(filtered, inBucket, m);
    }
  }
}
