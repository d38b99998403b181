/** The product catalog: the display model built from each detail record, the
    price rule, and the three queries over the loaded sequence (type filter,
    type list, search). */
module Catalog {
  import opened Wrappers
  import opened Lists
  import opened Text

  /** The fields of a detail record the display model reads. `None` is a JSON
      `null` or a missing field. */
  datatype DetailRecord = DetailRecord(
    id: int,
    name: string,
    frontDefault: Option<string>,
    baseExperience: Option<int>,
    typeNames: seq<string>,
    height: int,
    weight: int,
    abilityNames: seq<string>)

  /** A product card: built once at load time and never changed afterwards. */
  datatype Product = Product(
    id: int,
    name: string,
    image: Option<string>,
    price: int,
    types: seq<string>,
    height: int,
    weight: int,
    abilities: string)

  /** The value used when `base_experience` is falsy. */
  const DefaultBase: int := 100

  /** The category value that selects the whole catalog. */
  const AllCategories: string := "all"

  /** `base_experience || 100`, then rounded down to a multiple of ten. Dafny's
      division by a positive divisor rounds down, as `Math.floor` does. */
  function DerivePrice(baseExperience: Option<int>): (price: int)
    ensures price % 10 == 0
    ensures baseExperience.Some? && baseExperience.value != 0 ==>
              baseExperience.value - 10 < price <= baseExperience.value
    ensures baseExperience.None? || baseExperience.value == 0 ==> price == DefaultBase
  {
    var base := if baseExperience.None? || baseExperience.value == 0 then DefaultBase
                else baseExperience.value;
    (base / 10) * 10
  }

  /** `parts.join(sep)`: the parts in order with one separator between
      neighbours. */
  function Join(parts: seq<string>, sep: string): (r: string)
    ensures parts == [] ==> r == ""
    ensures |parts| == 1 ==> r == parts[0]
    ensures |parts| > 1 ==> StartsWith(r, parts[0] + sep)
  {
    if parts == [] then ""
    else if |parts| == 1 then parts[0]
    else parts[0] + sep + Join(parts[1..], sep)
  }

  /** Adding one more part adds one separator and that part at the end. */
  lemma {:induction false} JoinAppend(parts: seq<string>, x: string, sep: string)
    requires parts != []
    ensures Join(parts + [x], sep) == Join(parts, sep) + sep + x
  {
    if |parts| > 1 {
      assert (parts + [x])[1..] == parts[1..] + [x];
      JoinAppend(parts[1..], x, sep);
    } else {
      assert (parts + [x])[1..] == [x];
    }
  }

  /** The per-record mapping of the loader: every field is copied from the
      record except the price, which follows the price rule, and the
      abilities, which are joined with ", ". */
  function ToProduct(d: DetailRecord): (p: Product)
    ensures p.id == d.id && p.name == d.name && p.types == d.typeNames
    ensures p.image == d.frontDefault && p.height == d.height && p.weight == d.weight
    ensures p.abilities == Join(d.abilityNames, ", ")
    ensures p.price == DerivePrice(d.baseExperience)
    ensures d.baseExperience.None? || d.baseExperience == Some(0) ==> p.price == DefaultBase
  {
    Product(d.id, d.name, d.frontDefault, DerivePrice(d.baseExperience), d.typeNames,
            d.height, d.weight, Join(d.abilityNames, ", "))
  }

  /** `types.includes(category)`. */
  predicate HasType(p: Product, category: string)
    ensures HasType(p, category) <==> exists i :: 0 <= i < |p.types| && p.types[i] == category
  {
    category in p.types
  }

  /** The type filter: "all" keeps everything, another category keeps the
      products tagged with it. */
  function FilterProducts(catalog: seq<Product>, category: string): (r: seq<Product>)
    ensures category == AllCategories ==> r == catalog
    ensures |r| <= |catalog|
    ensures forall p :: p in r ==> p in catalog && (category == AllCategories || HasType(p, category))
  {
    if category == AllCategories then catalog
    else Filter(catalog, (p: Product) => HasType(p, category))
  }

  /** "all" returns the catalog untouched. */
  lemma FilterAllIsIdentity(catalog: seq<Product>)
    ensures FilterProducts(catalog, AllCategories) == catalog
  {
  }

  /** Any other category returns exactly the products tagged with it, in
      catalog order, each as often as it occurs in the catalog. */
  lemma FilterProductsSpec(catalog: seq<Product>, category: string)
    requires category != AllCategories
    ensures IsSubsequence(FilterProducts(catalog, category), catalog)
    ensures forall p :: p in FilterProducts(catalog, category) <==> p in catalog && HasType(p, category)
    ensures forall p :: multiset(FilterProducts(catalog, category))[p] ==
                        if HasType(p, category) then multiset(catalog)[p] else 0
  {
    var keep := (p: Product) => HasType(p, category);
    FilterSubsequence(catalog, keep);
    forall p ensures p in Filter(catalog, keep) <==> p in catalog && HasType(p, category) {
      FilterMembers(catalog, keep, p);
    }
    forall p ensures multiset(Filter(catalog, keep))[p] == if HasType(p, category) then multiset(catalog)[p] else 0 {
      FilterCount(catalog, keep, p);
    }
  }

  /** `catalog.flatMap(p => p.types)`. */
  function AllTypes(catalog: seq<Product>): (r: seq<string>)
    ensures catalog != [] ==> |catalog[0].types| <= |r| && r[..|catalog[0].types|] == catalog[0].types
    ensures forall t :: t in r ==> exists i :: 0 <= i < |catalog| && HasType(catalog[i], t)
  {
    if catalog == [] then [] else catalog[0].types + AllTypes(catalog[1..])
  }

  /** A tag occurs in the flattened list exactly when some product carries it. */
  lemma {:induction false} AllTypesMembers(catalog: seq<Product>, t: string)
    ensures t in AllTypes(catalog) <==> exists i :: 0 <= i < |catalog| && HasType(catalog[i], t)
  {
    if catalog != [] {
      AllTypesMembers(catalog[1..], t);
      if exists i :: 0 <= i < |catalog| && HasType(catalog[i], t) {
        var i :| 0 <= i < |catalog| && HasType(catalog[i], t);
        if i > 0 {
          assert HasType(catalog[1..][i - 1], t);
        }
      }
      if exists i :: 0 <= i < |catalog[1..]| && HasType(catalog[1..][i], t) {
        var i :| 0 <= i < |catalog[1..]| && HasType(catalog[1..][i], t);
        assert HasType(catalog[i + 1], t);
      }
    }
  }

  /** The options of the type dropdown: `[...new Set(flatMap)]` followed by `sort()`. */
  function TypeList(catalog: seq<Product>): (r: seq<string>)
    ensures multiset(r) == multiset(Distinct(AllTypes(catalog)))
  {
    Sort(Distinct(AllTypes(catalog)))
  }

  /** The type list is strictly ascending (so free of duplicates) and holds exactly
      the tags that occur on some product. */
  lemma TypeListSpec(catalog: seq<Product>)
    ensures StrictlySorted(TypeList(catalog))
    ensures NoDuplicates(TypeList(catalog))
    ensures forall t :: t in TypeList(catalog) <==>
                        exists i :: 0 <= i < |catalog| && HasType(catalog[i], t)
  {
    var all := AllTypes(catalog);
    var d := Distinct(all);
    SortSorted(d);
    var r := Sort(d);
    forall i, j | 0 <= i < j < |r| ensures r[i] != r[j] {
    }
    forall t ensures t in r <==> exists i :: 0 <= i < |catalog| && HasType(catalog[i], t) {
      AllTypesMembers(catalog, t);
      assert t in r <==> t in multiset(d);
      if t in all {
        var k :| 0 <= k < |all| && all[k] == t;
        assert d[..] == d;
      }
      if t in d {
        var k :| 0 <= k < |d| && d[k] == t;
      }
    }
  }

  /** Whatever correct sort produced the list, an ordered list of the same tags
      is this one. */
  lemma TypeListIsTheOnlyOrder(catalog: seq<Product>, other: seq<string>)
    requires StrictlySorted(other)
    requires forall t :: t in other <==> exists i :: 0 <= i < |catalog| && HasType(catalog[i], t)
    ensures other == TypeList(catalog)
  {
    TypeListSpec(catalog);
    StrictlySortedUnique(other, TypeList(catalog));
  }

  /** `toLowerCase().trim()` of the query. */
  function SearchTerm(query: string): (term: string)
    ensures |term| <= |query|
    ensures exists i :: CutAt(Lower(query), term, i)
    ensures term == [] <==> Trim(query) == []
    ensures term != [] ==> !IsSpace(term[0]) && !IsSpace(term[|term| - 1])
  {
    LowerTrimBlank(query);
    Trim(Lower(query))
  }

  /** The name test: the lowercased name contains the term. */
  predicate NameMatches(p: Product, term: string)
    ensures NameMatches(p, term) ==> |term| <= |p.name|
    ensures term == [] ==> NameMatches(p, term)
  {
    Contains(Lower(p.name), term)
  }

  /** The id test: `id.toString() === term`, a string comparison. `searchPokemons`
      also tests `!isNaN(term)`, which every numeral passes, so that test never
      changes the outcome. */
  predicate IdMatches(p: Product, term: string)
    ensures IdMatches(p, term) ==> term != [] && (term[0] == '-' || IsDigit(term[0]))
    ensures IdMatches(p, term) ==> forall k :: 0 < k < |term| ==> IsDigit(term[k])
  {
    IntToString(p.id) == term
  }

  /** `nameMatch || idMatch`: the empty term matches every product, and a
      product matches a term longer than its name only by its id. */
  predicate SearchMatches(p: Product, term: string)
    ensures term == [] ==> SearchMatches(p, term)
    ensures SearchMatches(p, term) && |term| > |p.name| ==> IdMatches(p, term)
  {
    NameMatches(p, term) || IdMatches(p, term)
  }

  /** The search box: a blank query shows every product; otherwise the products
      whose name contains the term or whose id prints as the term. */
  function Search(catalog: seq<Product>, query: string): (r: seq<Product>)
    ensures (forall k :: 0 <= k < |query| ==> IsSpace(query[k])) ==> r == catalog
    ensures |r| <= |catalog|
    ensures forall p :: p in r ==> p in catalog
  {
    if Trim(query) == [] then catalog
    else
      var term := SearchTerm(query);
      Filter(catalog, (p: Product) => SearchMatches(p, term))
  }

  /** An empty or whitespace-only query returns the whole catalog. */
  lemma SearchBlank(catalog: seq<Product>, query: string)
    requires forall k :: 0 <= k < |query| ==> IsSpace(query[k])
    ensures Search(catalog, query) == catalog
  {
    TrimBlank(query);
  }

  /** A non-blank query gives a non-empty term, and the result is the in-order
      subsequence of the products that match it. */
  lemma SearchSpec(catalog: seq<Product>, query: string)
    requires Trim(query) != []
    ensures SearchTerm(query) != []
    ensures IsSubsequence(Search(catalog, query), catalog)
    ensures forall p :: p in Search(catalog, query) <==>
                        p in catalog && SearchMatches(p, SearchTerm(query))
    ensures forall p :: multiset(Search(catalog, query))[p] ==
                        if SearchMatches(p, SearchTerm(query)) then multiset(catalog)[p] else 0
  {
    LowerTrimBlank(query);
    var term := SearchTerm(query);
    var keep := (p: Product) => SearchMatches(p, term);
    FilterSubsequence(catalog, keep);
    forall p ensures p in Filter(catalog, keep) <==> p in catalog && SearchMatches(p, term) {
      FilterMembers(catalog, keep, p);
    }
    forall p ensures multiset(Filter(catalog, keep))[p] == if SearchMatches(p, term) then multiset(catalog)[p] else 0 {
      FilterCount(catalog, keep, p);
    }
  }

  /** Every search result is an in-order subsequence of the catalog. */
  lemma SearchSubsequence(catalog: seq<Product>, query: string)
    ensures IsSubsequence(Search(catalog, query), catalog)
  {
    if Trim(query) == [] {
      SubsequenceReflexive(catalog);
    } else {
      SearchSpec(catalog, query);
    }
  }

  lemma {:induction false} SubsequenceReflexive(s: seq<Product>)
    ensures IsSubsequence(s, s)
  {
    if s != [] {
      SubsequenceReflexive(s[1..]);
    }
  }

  /** Searching for the printed id of a catalog product finds it, whatever its name. */
  lemma SearchFindsId(catalog: seq<Product>, p: Product)
    requires p in catalog
    ensures p in Search(catalog, IntToString(p.id))
  {
    var q := IntToString(p.id);
    IntToStringIsTerm(p.id);
    LowerTrimBlank(q);
    SearchSpec(catalog, q);
  }

  /** A query with a leading zero, such as "025", never matches by id: only a
      product whose lowercased name contains it can be returned. */
  lemma SearchLeadingZero(catalog: seq<Product>, query: string, p: Product)
    requires |SearchTerm(query)| > 1 && SearchTerm(query)[0] == '0'
    ensures p in Search(catalog, query) <==> p in catalog && NameMatches(p, SearchTerm(query))
  {
    LowerTrimBlank(query);
    SearchSpec(catalog, query);
    LeadingZeroIsNoId(SearchTerm(query), p.id);
  }
}
