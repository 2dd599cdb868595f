/**
 * The products page sends its selected categories and brands as one
 * comma-joined string, so `includes` in the category and brand filters is a
 * substring test on that string. This module compares it with the test the
 * page evidently means: is the id one of the comma-separated fields.
 */
module Selection {
  import opened Wrappers
  import opened Seqs
  import opened Products
  import opened Query

  /** `names.join(',')`. */
  function Join(names: seq<string>): string
  {
    if names == [] then ""
    else if |names| == 1 then names[0]
    else names[0] + "," + Join(names[1..])
  }

  predicate NoComma(s: string)
  {
    forall i :: 0 <= i < |s| ==> s[i] != ','
  }

  /** `value` is a whole comma-separated field of `text`, starting at index `i`. */
  predicate FieldAt(text: string, value: string, i: int)
  {
    && OccursAt(text, value, i)
    && (i == 0 || text[i - 1] == ',')
    && (i + |value| == |text| || text[i + |value|] == ',')
  }

  /** `value` is one of the fields of `text.split(',')`. */
  predicate Listed(text: string, value: string)
  {
    exists i :: 0 <= i <= |text| && FieldAt(text, value, i)
  }

  /** A single comma-free name has itself as its only field. */
  lemma ListedInSingle(a: string, v: string)
    requires NoComma(a)
    ensures Listed(a, v) <==> v == a
  {
    if Listed(a, v) {
      var i :| 0 <= i <= |a| && FieldAt(a, v, i);
      assert v == a[0..|a|];
    }
    if v == a {
      assert FieldAt(a, v, 0);
    }
  }

  /** A field of `a + "," + rest` that starts inside comma-free `a` is `a` itself. */
  lemma FieldInHead(a: string, rest: string, v: string, i: int)
    requires NoComma(a) && NoComma(v)
    requires FieldAt(a + "," + rest, v, i) && i <= |a|
    ensures v == a
  {
    var t := a + "," + rest;
    forall k | 0 <= k < |a|
      ensures t[k] != ','
    {
      assert t[k] == a[k];
    }
    forall k | i <= k < i + |v|
      ensures t[k] != ','
    {
      assert t[k] == v[k - i];
    }
    assert t[|a|] == ',';
    assert v == t[0..|a|] == a;
  }

  /** Fields of `rest` are the fields of `a + "," + rest` that start after the comma, shifted. */
  lemma FieldInTail(a: string, rest: string, v: string, j: int)
    requires 0 <= j <= |rest|
    ensures FieldAt(a + "," + rest, v, j + |a| + 1) <==> FieldAt(rest, v, j)
  {
    var t := a + "," + rest;
    var i := j + |a| + 1;
    if i + |v| <= |t| {
      assert t[i..i + |v|] == rest[j..j + |v|];
    }
    assert j > 0 ==> t[i - 1] == rest[j - 1];
    assert i + |v| < |t| ==> t[i + |v|] == rest[j + |v|];
  }

  /** The fields of `a + "," + rest` are `a` and the fields of `rest`. */
  lemma ListedInCons(a: string, rest: string, v: string)
    requires NoComma(a) && NoComma(v)
    ensures Listed(a + "," + rest, v) <==> v == a || Listed(rest, v)
  {
    var t := a + "," + rest;
    if Listed(t, v) {
      var i :| 0 <= i <= |t| && FieldAt(t, v, i);
      if i <= |a| {
        FieldInHead(a, rest, v, i);
      } else {
        FieldInTail(a, rest, v, i - |a| - 1);
      }
    }
    if v == a {
      assert t[0..|a|] == a && t[|a|] == ',';
      assert FieldAt(t, v, 0);
    } else if Listed(rest, v) {
      var j :| 0 <= j <= |rest| && FieldAt(rest, v, j);
      FieldInTail(a, rest, v, j);
    }
  }

  /**
   * Field membership in the joined string is membership in the selection,
   * for names and a value without commas.
   */
  lemma {:induction false} ListedInJoinIffMember(names: seq<string>, v: string)
    requires names != []
    requires forall k :: 0 <= k < |names| ==> NoComma(names[k])
    requires NoComma(v)
    ensures Listed(Join(names), v) <==> v in names
  {
    if |names| == 1 {
      ListedInSingle(names[0], v);
    } else {
      ListedInJoinIffMember(names[1..], v);
      ListedInCons(names[0], Join(names[1..]), v);
      assert names == [names[0]] + names[1..];
    }
  }

  /** The filter test the page evidently means: array membership, or being a field of the joined string. */
  predicate IncludesName(n: NameFilter, value: string)
  {
    match n
    case NameList(names) => value in names
    case Joined(text) => Listed(text, value)
  }

  /** On a joined selection of comma-free names, the field test agrees with membership in the selection. */
  lemma IncludesNameAgreesWithList(names: seq<string>, v: string)
    requires names != []
    requires forall k :: 0 <= k < |names| ==> NoComma(names[k])
    requires NoComma(v)
    ensures IncludesName(Joined(Join(names)), v) == IncludesName(NameList(names), v)
    ensures IncludesName(NameList(names), v) == Includes(NameList(names), v)
  {
    ListedInJoinIffMember(names, v);
  }

  function CategoryProduct(category: string): Product
  {
    Product("p1", "Shoe Model 1", 5999, "", "", 8, 0, true, [], 10, "brand1", category)
  }

  function JoinedCategories(names: seq<string>): Filters
  {
    Filters(Joined(Join(names)), NameList([]), None, None, false, None, None, None)
  }

  /**
   * With only `cat10` selected, the joined-string filter still keeps a `cat1`
   * product, because `"cat10".includes("cat1")`; `cat1` is not a field of the
   * selection.
   */
  lemma JoinedSelectionKeepsPrefixIds()
    ensures Selected([CategoryProduct("cat1")], JoinedCategories(["cat10"])) == [CategoryProduct("cat1")]
    ensures !Listed(Join(["cat10"]), "cat1")
  {
    var p := CategoryProduct("cat1");
    assert OccursAt("cat10", "cat1", 0);
    ContainsIffOccurs("cat10", "cat1");
    assert Matches(JoinedCategories(["cat10"]), p);
    FilterKeepsAll([p], MatchesOf(JoinedCategories(["cat10"])));
    ListedInJoinIffMember(["cat10"], "cat1");
  }
}
