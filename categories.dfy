/**
 * Keyword categorisation (`categorize` in parser.py and, identically, in
 * backup.py). Category rules are an ordered list of (name, keywords); the
 * order is the iteration order of the loaded JSON object.
 */
module Categories {
  import opened Text

  datatype Category = Category(name: string, keywords: seq<string>)

  /** The label returned when no category matches ("uncategorised"). */
  const Uncategorized: string := "Без категории"

  /** Some keyword of the category, lower-cased, is a substring of the lower-cased text. */
  predicate Matches(text: string, keywords: seq<string>) {
    exists k :: 0 <= k < |keywords| && Contains(Lower(text), Lower(keywords[k]))
  }

  /** The first category in rule order whose keywords match `text`, else `Uncategorized`. */
  function Categorize(text: string, rules: seq<Category>): (r: string)
    ensures (forall i :: 0 <= i < |rules| ==> !Matches(text, rules[i].keywords)) ==> r == Uncategorized
    ensures forall i :: 0 <= i < |rules| && Matches(text, rules[i].keywords)
                        && (forall j :: 0 <= j < i ==> !Matches(text, rules[j].keywords))
                        ==> r == rules[i].name
  {
    if |rules| == 0 then Uncategorized
    else if Matches(text, rules[0].keywords) then rules[0].name
    else
      var r := Categorize(text, rules[1..]);
      assert forall i :: 1 <= i < |rules| ==> rules[1..][i - 1] == rules[i];
      r
  }

  /** The result is always a configured name or the sentinel. */
  lemma CategorizeRange(text: string, rules: seq<Category>)
    ensures Categorize(text, rules) == Uncategorized
            || exists i :: 0 <= i < |rules| && Categorize(text, rules) == rules[i].name
  {
    if (forall i :: 0 <= i < |rules| ==> !Matches(text, rules[i].keywords)) {
    } else {
      var i :| 0 <= i < |rules| && Matches(text, rules[i].keywords);
      var f := FirstMatching(text, rules, i);
      assert Categorize(text, rules) == rules[f].name;
    }
  }

  /** Some index matches, so there is a least one. */
  lemma FirstMatching(text: string, rules: seq<Category>, i: nat) returns (f: nat)
    requires i < |rules| && Matches(text, rules[i].keywords)
    ensures f <= i && Matches(text, rules[f].keywords)
    ensures forall j :: 0 <= j < f ==> !Matches(text, rules[j].keywords)
    decreases i
  {
    if exists j :: 0 <= j < i && Matches(text, rules[j].keywords) {
      var j :| 0 <= j < i && Matches(text, rules[j].keywords);
      f := FirstMatching(text, rules, j);
    } else {
      f := i;
    }
  }

  /** Categorisation ignores case: the text is lower-cased before matching. */
  lemma {:induction false} CategorizeIgnoresCase(text: string, rules: seq<Category>)
    ensures Categorize(Lower(text), rules) == Categorize(text, rules)
    decreases |rules|
  {
    if |rules| > 0 {
      MatchesIgnoresCase(text, rules[0].keywords);
      CategorizeIgnoresCase(text, rules[1..]);
    }
  }

  /** Matching lower-cases the text itself, so a lower-cased text matches the same keywords. */
  lemma MatchesIgnoresCase(text: string, keywords: seq<string>)
    ensures Matches(Lower(text), keywords) == Matches(text, keywords)
  {
    LowerIdempotent(text);
  }

  /** A keyword matched in another case picks its category; text matching nothing is uncategorised. */
  lemma CategorizeExamples()
    ensures Categorize("Payment to GROCERY STORE", [Category("Groceries", ["grocery"])]) == "Groceries"
    ensures Categorize("xyz", [Category("Groceries", ["grocery"])]) == Uncategorized
  {
    var text := "Payment to GROCERY STORE";
    var lowered := Lower(text);
    assert lowered[11..18] == "grocery";
    assert Lower("grocery") == "grocery";
    assert OccursAt(lowered, "grocery", 11);
    ContainsOccurs(lowered, "grocery");
    var keywords := ["grocery"];
    assert Contains(Lower(text), Lower(keywords[0]));
    assert Matches(text, keywords);
    var other := Lower("xyz");
    assert other == "xyz";
    ContainsOccurs(other, "grocery");
    assert !Matches("xyz", ["grocery"]);
  }
}
