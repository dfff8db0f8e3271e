/** The scan filter of a product listing: a filter-expression string and
    the values of its `:name` placeholders, built from the optional
    `searchTerm` and `category` query parameters. */
module CatalogFilter {
  import opened Java
  import opened DynamoStore

  /** A filter expression with the values of its placeholders. */
  datatype ScanFilter = ScanFilter(expression: string, values: map<string, AttributeValue>)

  const SearchClause: string := "contains(productName, :val)"
  const CategoryClause: string := "categoryName = :cat"
  const Conjunction: string := " AND "

  /** The filter a listing passes to the scan, or `None` when the scan
      carries no filter at all. */
  function FilterFor(searchTerm: JString, category: JString): (r: Option<ScanFilter>)
    ensures r.None? <==> !Present(searchTerm) && !Present(category)
    ensures r.Some? ==> (":val" in r.value.values <==> Present(searchTerm))
    ensures r.Some? ==> (":cat" in r.value.values <==> Present(category))
  {
    if !Present(searchTerm) && !Present(category) then None
    else
      var expression :=
        if Present(searchTerm) && Present(category) then SearchClause + Conjunction + CategoryClause
        else if Present(searchTerm) then SearchClause
        else CategoryClause;
      var values :=
        (if Present(searchTerm) then map[":val" := S(searchTerm)] else map[]) +
        (if Present(category) then map[":cat" := S(category)] else map[]);
      Some(ScanFilter(expression, values))
  }

  /** Lines 140-159: the expression grows clause by clause and each clause
      puts its placeholder's value into the value map. */
  method BuildFilter(searchTerm: JString, category: JString) returns (filter: Option<ScanFilter>)
    ensures filter == FilterFor(searchTerm, category)
  {
    var filterExpression: string := "";
    var expressionAttributeValues: map<string, AttributeValue> := map[];
    if searchTerm.Some? && searchTerm.value != "" {
      filterExpression := filterExpression + SearchClause;
      expressionAttributeValues := expressionAttributeValues[":val" := S(searchTerm)];
    }
    assert filterExpression == (if Present(searchTerm) then SearchClause else "");
    if category.Some? && category.value != "" {
      if filterExpression != "" {
        filterExpression := filterExpression + Conjunction;
      }
      filterExpression := filterExpression + CategoryClause;
      expressionAttributeValues := expressionAttributeValues[":cat" := S(category)];
    }
    if filterExpression != "" {
      filter := Some(ScanFilter(filterExpression, expressionAttributeValues));
    } else {
      filter := None;
    }
    if Present(searchTerm) || Present(category) {
      assert filterExpression == FilterFor(searchTerm, category).value.expression;
      assert expressionAttributeValues == FilterFor(searchTerm, category).value.values;
    }
  }

  predicate IdentifierChar(c: char) {
    ('a' <= c <= 'z') || ('A' <= c <= 'Z') || ('0' <= c <= '9') || c == '_'
  }

  /** The longest prefix of `s` made of identifier characters. */
  function Identifier(s: string): string {
    if s != [] && IdentifierChar(s[0]) then [s[0]] + Identifier(s[1..]) else []
  }

  /** The placeholders an expression mentions: every `:` and the identifier
      that follows it. */
  function Placeholders(e: string): set<string> {
    if e == [] then {}
    else if e[0] == ':' then {[':'] + Identifier(e[1..])} + Placeholders(e[1..])
    else Placeholders(e[1..])
  }

  lemma {:induction false} PlaceholdersSkip(a: string, b: string)
    requires forall i :: 0 <= i < |a| ==> a[i] != ':'
    ensures Placeholders(a + b) == Placeholders(b)
    decreases |a|
  {
    if a != [] {
      assert (a + b)[0] == a[0] && (a + b)[1..] == a[1..] + b;
      PlaceholdersSkip(a[1..], b);
    } else {
      assert a + b == b;
    }
  }

  lemma {:induction false} IdentifierOf(name: string, rest: string)
    requires forall i :: 0 <= i < |name| ==> IdentifierChar(name[i])
    requires rest == [] || !IdentifierChar(rest[0])
    ensures Identifier(name + rest) == name
    decreases |name|
  {
    if name != [] {
      assert (name + rest)[0] == name[0] && (name + rest)[1..] == name[1..] + rest;
      IdentifierOf(name[1..], rest);
    } else {
      assert name + rest == rest;
    }
  }

  /** A `:` followed by an identifier contributes exactly that placeholder. */
  lemma PlaceholdersToken(name: string, rest: string)
    requires forall i :: 0 <= i < |name| ==> IdentifierChar(name[i])
    requires rest == [] || !IdentifierChar(rest[0])
    ensures Placeholders([':'] + (name + rest)) == {[':'] + name} + Placeholders(rest)
  {
    var e := [':'] + (name + rest);
    assert e[0] == ':';
    assert e[1..] == name + rest;
    assert Placeholders(e) == {[':'] + Identifier(name + rest)} + Placeholders(name + rest);
    IdentifierOf(name, rest);
    PlaceholdersSkip(name, rest);
  }

  /** An expression with one placeholder between placeholder-free text. */
  lemma OnePlaceholder(prefix: string, name: string, suffix: string)
    requires forall i :: 0 <= i < |prefix| ==> prefix[i] != ':'
    requires forall i :: 0 <= i < |name| ==> IdentifierChar(name[i])
    requires suffix == [] || !IdentifierChar(suffix[0])
    requires forall i :: 0 <= i < |suffix| ==> suffix[i] != ':'
    ensures Placeholders(prefix + ([':'] + (name + suffix))) == {[':'] + name}
  {
    PlaceholdersSkip(prefix, [':'] + (name + suffix));
    PlaceholdersToken(name, suffix);
    PlaceholdersSkip(suffix, []);
    assert suffix + [] == suffix;
  }

  lemma SearchPlaceholders()
    ensures Placeholders(SearchClause) == {":val"}
  {
    var prefix, name, suffix := "contains(productName, ", "val", ")";
    assert SearchClause == prefix + ([':'] + (name + suffix));
    assert [':'] + name == ":val";
    OnePlaceholder(prefix, name, suffix);
  }

  lemma CategoryPlaceholders()
    ensures Placeholders(CategoryClause) == {":cat"}
  {
    var prefix, name, suffix := "categoryName = ", "cat", "";
    assert CategoryClause == prefix + ([':'] + (name + suffix));
    assert [':'] + name == ":cat";
    OnePlaceholder(prefix, name, suffix);
  }

  lemma BothPlaceholders()
    ensures Placeholders(SearchClause + Conjunction + CategoryClause) == {":val", ":cat"}
  {
    var prefix, name, middle := "contains(productName, ", "val", ") AND ";
    var rest := middle + CategoryClause;
    assert SearchClause + Conjunction + CategoryClause == prefix + ([':'] + (name + rest));
    assert [':'] + name == ":val";
    PlaceholdersSkip(prefix, [':'] + (name + rest));
    PlaceholdersToken(name, rest);
    PlaceholdersSkip(middle, CategoryClause);
    CategoryPlaceholders();
  }

  /** The three shapes of a filter that is set: the clauses of the given
      parameters, joined by " AND " when both are, with the search term and
      the category passed on verbatim. */
  lemma FilterShapes(searchTerm: JString, category: JString)
    ensures Present(searchTerm) && !Present(category) ==>
      FilterFor(searchTerm, category) == Some(ScanFilter("contains(productName, :val)", map[":val" := S(searchTerm)]))
    ensures !Present(searchTerm) && Present(category) ==>
      FilterFor(searchTerm, category) == Some(ScanFilter("categoryName = :cat", map[":cat" := S(category)]))
    ensures Present(searchTerm) && Present(category) ==>
      FilterFor(searchTerm, category) == Some(ScanFilter("contains(productName, :val) AND categoryName = :cat",
                                                         map[":val" := S(searchTerm), ":cat" := S(category)]))
  {
    var val: map<string, AttributeValue> := map[":val" := S(searchTerm)];
    var cat: map<string, AttributeValue> := map[":cat" := S(category)];
    assert val + map[] == val && map[] + cat == cat;
    assert val + cat == map[":val" := S(searchTerm), ":cat" := S(category)];
    assert SearchClause + Conjunction + CategoryClause == "contains(productName, :val) AND categoryName = :cat";
  }

  /** Every placeholder of the expression has a value, and every value
      belongs to a placeholder of the expression. */
  lemma FilterPlaceholders(searchTerm: JString, category: JString)
    requires FilterFor(searchTerm, category).Some?
    ensures FilterFor(searchTerm, category).value.values.Keys == Placeholders(FilterFor(searchTerm, category).value.expression)
  {
    if Present(searchTerm) && Present(category) {
      BothPlaceholders();
    } else if Present(searchTerm) {
      SearchPlaceholders();
    } else {
      CategoryPlaceholders();
    }
  }
}
