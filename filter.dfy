/** The dynamic filter engine: a criterion names a record attribute by its declared name
    and gives an expected value; numeric attributes must equal the parsed value, text
    attributes must contain it, ignoring case. A record is kept when every criterion holds;
    criteria are evaluated left to right and evaluation of a record stops at the first one
    that does not hold. */
module FilterEngine {
  import opened Model
  import opened Text
  import opened Seqs

  /** The declared attributes of a record, in declaration order. */
  datatype Field = Id | Name | Image | Description | Price | Rating | Specifications

  /** The declared name of each attribute. */
  function FieldName(f: Field): string {
    match f
    case Id => "id"
    case Name => "name"
    case Image => "image"
    case Description => "description"
    case Price => "price"
    case Rating => "rating"
    case Specifications => "specifications"
  }

  /** The attribute a key names: an exact, case-sensitive match on the declared names. */
  function LookupField(key: string): (r: Option<Field>)
    ensures forall f :: r == Some(f) <==> FieldName(f) == key
  {
    if key == "id" then Some(Id)
    else if key == "name" then Some(Name)
    else if key == "image" then Some(Image)
    else if key == "description" then Some(Description)
    else if key == "price" then Some(Price)
    else if key == "rating" then Some(Rating)
    else if key == "specifications" then Some(Specifications)
    else None
  }

  /** The current value of an attribute: a number, a text, or null. */
  datatype Value = Number(x: real) | Chars(s: string) | Null

  /** The attribute's value as a record holds it: the identifier is a number when present
      and null otherwise, price and rating are numbers, the other four are texts. */
  function ValueOf(p: Product, f: Field): (v: Value)
    ensures v.Null? <==> f == Id && p.id.None?
    ensures v.Number? <==> f == Price || f == Rating || (f == Id && p.id.Some?)
    ensures v.Chars? <==> f == Name || f == Image || f == Description || f == Specifications
    ensures f == Id && p.id.Some? ==> v.x == p.id.value as real
    ensures f == Price ==> v.x == p.price
    ensures f == Rating ==> v.x == p.rating
  {
    match f
    case Id => (match p.id case None => Null case Some(n) => Number(n as real))
    case Name => Chars(p.name)
    case Image => Chars(p.image)
    case Description => Chars(p.description)
    case Price => Number(p.price)
    case Rating => Number(p.rating)
    case Specifications => Chars(p.specifications)
  }

  /** What a criterion asks of a record: the named attribute is a number equal to the
      expected value read as a decimal literal, or a text in which the expected value
      occurs, both lower-cased. */
  ghost predicate Holds(p: Product, c: Filter) {
    match LookupField(c.key)
    case None => false
    case Some(f) =>
      match ValueOf(p, f)
      case Number(x) => ParseNumber(c.value) == Some(x)
      case Chars(s) => exists i :: OccursAt(ToLower(s), ToLower(c.value), i)
      case Null => false
  }

  /** The criterion can be evaluated against the record without raising: key and value
      are non-empty, the key names an attribute, and that attribute is a text, or a
      number compared with a well-formed literal. */
  ghost predicate Evaluable(p: Product, c: Filter) {
    && c.key != []
    && c.value != []
    && match LookupField(c.key)
       case None => false
       case Some(f) =>
         match ValueOf(p, f)
         case Number(_) => IsDecimalLiteral(c.value)
         case Chars(_) => true
         case Null => false
  }

  /** The key names one of the text attributes. */
  predicate IsTextKey(key: string) {
    LookupField(key).Some? && LookupField(key).value in {Name, Image, Description, Specifications}
  }

  /** Every criterion of the list holds of the record. */
  ghost predicate AllHold(p: Product, fs: seq<Filter>) {
    forall i :: 0 <= i < |fs| ==> Holds(p, fs[i])
  }

  /** The records a correct filter keeps. */
  ghost function Matching(fs: seq<Filter>): Product -> bool {
    p => AllHold(p, fs)
  }

  /** Evaluation of one criterion against one record. */
  function Evaluate(p: Product, c: Filter): (r: Result<bool>)
    ensures r.Ok? <==> Evaluable(p, c)
    ensures r.Ok? ==> (r.value <==> Holds(p, c))
    ensures c.key == [] || c.value == [] ==> r == Err(EmptyFilter)
    ensures c.key != [] && c.value != [] && LookupField(c.key).None? ==> r == Err(InvalidColumn(c.key))
    ensures r.Err? ==> r.error in {EmptyFilter, InvalidColumn(c.key), NumberFormat(c.value), NullPointer}
  {
    if c.key == [] || c.value == [] then Err(EmptyFilter)
    else
      match LookupField(c.key)
      case None => Err(InvalidColumn(c.key))
      case Some(f) =>
        match ValueOf(p, f)
        case Number(x) =>
          ParseNumberIffLiteral(c.value);
          (match ParseNumber(c.value)
           case None => Err(NumberFormat(c.value))
           case Some(v) => Ok(x == v))
        case Chars(s) =>
          ContainsIffOccurs(ToLower(s), ToLower(c.value));
          Ok(Contains(ToLower(s), ToLower(c.value)))
        case Null => Err(NullPointer)
  }

  /** The failures that evaluating a criterion can raise. */
  predicate IsFilterError(e: Error) {
    e.EmptyFilter? || e.InvalidColumn? || e.NumberFormat? || e.NullPointer?
  }

  /** Left-to-right conjunction of the criteria, stopping at the first one that does not
      hold. */
  function MatchesAll(p: Product, fs: seq<Filter>): (r: Result<bool>)
    ensures fs == [] ==> r == Ok(true)
    ensures r.Ok? ==> (r.value <==> AllHold(p, fs))
    ensures (forall i :: 0 <= i < |fs| ==> Evaluable(p, fs[i])) ==> r.Ok?
    ensures r.Err? ==> IsFilterError(r.error)
  {
    if fs == [] then Ok(true)
    else
      match Evaluate(p, fs[0])
      case Err(e) => Err(e)
      case Ok(b) =>
        if !b then Ok(false)
        else
          assert forall i :: 0 <= i < |fs| - 1 ==> fs[1..][i] == fs[i + 1];
          MatchesAll(p, fs[1..])
  }

  /** The records that satisfy every criterion, in stored order; the first failure met,
      record by record, is raised instead. */
  function FilterList(ps: seq<Product>, fs: seq<Filter>): (r: Result<seq<Product>>)
    ensures ps == [] ==> r == Ok([])
    ensures r.Ok? <==> forall i :: 0 <= i < |ps| ==> MatchesAll(ps[i], fs).Ok?
    ensures r.Ok? ==> r.value == Select(ps, Matching(fs))
    ensures r.Err? ==> IsFilterError(r.error)
  {
    if ps == [] then Ok([])
    else
      match MatchesAll(ps[0], fs)
      case Err(e) => Err(e)
      case Ok(b) =>
        assert forall i :: 0 <= i < |ps| - 1 ==> ps[1..][i] == ps[i + 1];
        match FilterList(ps[1..], fs)
        case Err(e) => Err(e)
        case Ok(rest) => Ok(if b then [ps[0]] + rest else rest)
  }

  /** With no criteria every stored record is returned, in stored order. */
  lemma FilterNoCriteria(ps: seq<Product>)
    ensures FilterList(ps, []) == Ok(ps)
  {
    SelectAll(ps, Matching([]));
  }

  /** A record is in the result exactly when it is stored and satisfies every criterion. */
  lemma FilterMembership(ps: seq<Product>, fs: seq<Filter>, x: Product)
    requires FilterList(ps, fs).Ok?
    ensures x in FilterList(ps, fs).value <==> x in ps && AllHold(x, fs)
  {
    SelectMembership(ps, Matching(fs), x);
  }

  /** Each stored record that satisfies every criterion is returned as often as it is
      stored; every other record is dropped. */
  lemma FilterCount(ps: seq<Product>, fs: seq<Filter>, x: Product)
    requires FilterList(ps, fs).Ok?
    ensures multiset(FilterList(ps, fs).value)[x] == if AllHold(x, fs) then multiset(ps)[x] else 0
  {
    SelectCount(ps, Matching(fs), x);
  }

  /** The filter over a concatenation of collections is the concatenation of the filters. */
  lemma {:induction false} FilterAppend(a: seq<Product>, b: seq<Product>, fs: seq<Filter>)
    requires FilterList(a + b, fs).Ok?
    ensures FilterList(a, fs).Ok? && FilterList(b, fs).Ok?
    ensures FilterList(a + b, fs).value == FilterList(a, fs).value + FilterList(b, fs).value
  {
    forall i | 0 <= i < |a| ensures MatchesAll(a[i], fs).Ok? {
      assert (a + b)[i] == a[i];
    }
    forall i | 0 <= i < |b| ensures MatchesAll(b[i], fs).Ok? {
      assert (a + b)[|a| + i] == b[i];
    }
    SelectAppend(a, b, Matching(fs));
  }

  /** Evaluation of the criteria reaches position `k`: every earlier criterion could be
      evaluated and held. */
  ghost predicate Reaches(p: Product, fs: seq<Filter>, k: int) {
    0 <= k <= |fs| && forall j :: 0 <= j < k ==> Evaluable(p, fs[j]) && Holds(p, fs[j])
  }

  /** A record's evaluation fails exactly when it reaches a criterion that cannot be
      evaluated, and the failure raised is that criterion's. */
  lemma MatchesAllFails(p: Product, fs: seq<Filter>)
    ensures MatchesAll(p, fs).Err? ==>
      exists k :: 0 <= k < |fs| && Reaches(p, fs, k) && Evaluate(p, fs[k]) == MatchesAll(p, fs)
    ensures forall k :: 0 <= k < |fs| && Reaches(p, fs, k) && !Evaluable(p, fs[k]) ==> MatchesAll(p, fs).Err?
  {
    if MatchesAll(p, fs).Err? {
      FailureReached(p, fs);
    }
    forall k | 0 <= k < |fs| && Reaches(p, fs, k) && !Evaluable(p, fs[k])
      ensures MatchesAll(p, fs).Err?
    {
      ReachedFailureRaised(p, fs, k);
    }
  }

  /** A failed evaluation failed at a criterion it reached. */
  lemma {:induction false} FailureReached(p: Product, fs: seq<Filter>)
    requires MatchesAll(p, fs).Err?
    ensures exists k :: 0 <= k < |fs| && Reaches(p, fs, k) && Evaluate(p, fs[k]) == MatchesAll(p, fs)
  {
    if Evaluate(p, fs[0]).Err? {
      assert Reaches(p, fs, 0);
    } else {
      var rest := fs[1..];
      assert MatchesAll(p, fs) == MatchesAll(p, rest);
      FailureReached(p, rest);
      var k :| 0 <= k < |rest| && Reaches(p, rest, k) && Evaluate(p, rest[k]) == MatchesAll(p, rest);
      assert fs[k + 1] == rest[k];
      assert forall j :: 0 < j <= k ==> fs[j] == rest[j - 1];
      assert Reaches(p, fs, k + 1);
    }
  }

  /** A criterion that is reached and cannot be evaluated makes the evaluation fail. */
  lemma {:induction false} ReachedFailureRaised(p: Product, fs: seq<Filter>, k: int)
    requires 0 <= k < |fs| && Reaches(p, fs, k) && !Evaluable(p, fs[k])
    ensures MatchesAll(p, fs).Err?
  {
    if k > 0 {
      var rest := fs[1..];
      assert Evaluable(p, fs[0]) && Holds(p, fs[0]);
      assert MatchesAll(p, fs) == MatchesAll(p, rest);
      assert rest[k - 1] == fs[k];
      assert forall j :: 0 <= j < k - 1 ==> rest[j] == fs[j + 1];
      ReachedFailureRaised(p, rest, k - 1);
    }
  }

  /** The filter fails with the failure of the first record whose evaluation fails. */
  lemma {:induction false} FilterFailsAtFirst(ps: seq<Product>, fs: seq<Filter>)
    requires FilterList(ps, fs).Err?
    ensures exists i :: 0 <= i < |ps| && MatchesAll(ps[i], fs) == Err(FilterList(ps, fs).error) &&
                        forall j :: 0 <= j < i ==> MatchesAll(ps[j], fs).Ok?
  {
    var rest := ps[1..];
    match MatchesAll(ps[0], fs)
    case Err(e) =>
    case Ok(_) =>
      FilterFailsAtFirst(rest, fs);
      var i :| 0 <= i < |rest| && MatchesAll(rest[i], fs) == Err(FilterList(rest, fs).error)
        && forall j :: 0 <= j < i ==> MatchesAll(rest[j], fs).Ok?;
      assert ps[i + 1] == rest[i];
      forall j | 0 <= j < i + 1 ensures MatchesAll(ps[j], fs).Ok? {
        if j > 0 { assert ps[j] == rest[j - 1]; }
      }
  }

  /** With a non-empty store, an invalid first criterion is always reported. */
  lemma FilterInvalidFirstCriterion(ps: seq<Product>, fs: seq<Filter>)
    requires ps != [] && fs != []
    ensures fs[0].key == [] || fs[0].value == [] ==> FilterList(ps, fs) == Err(EmptyFilter)
    ensures fs[0].key != [] && fs[0].value != [] && LookupField(fs[0].key).None? ==>
      FilterList(ps, fs) == Err(InvalidColumn(fs[0].key))
  {
  }

  /** Filtering a one-record collection keeps the record exactly when it matches. */
  lemma FilterSingleRecord(p: Product, fs: seq<Filter>)
    ensures FilterList([p], fs) == match MatchesAll(p, fs)
                                   case Err(e) => Err(e)
                                   case Ok(b) => Ok(if b then [p] else [])
  {
    assert [p][1..] == [];
    assert FilterList([], fs) == Ok([]);
    match MatchesAll(p, fs)
    case Err(e) =>
    case Ok(b) =>
      assert b ==> [p] + [] == [p];
  }

  /** A single criterion is evaluated on its own. */
  lemma MatchesSingleCriterion(p: Product, c: Filter)
    ensures MatchesAll(p, [c]) == Evaluate(p, c)
  {
    assert [c][1..] == [];
  }

  /** On a text attribute the case of the expected value does not matter. */
  lemma CaseOfValueIgnored(p: Product, key: string, v: string, w: string)
    requires IsTextKey(key) && ToLower(v) == ToLower(w)
    ensures Evaluate(p, Filter(key, v)) == Evaluate(p, Filter(key, w))
  {
    assert |v| == |ToLower(v)| == |ToLower(w)| == |w|;
    if v != [] {
      TextCriterionIsContains(p, key, v);
      TextCriterionIsContains(p, key, w);
    }
  }

  /** On a text attribute a non-empty value is looked for in the attribute. */
  lemma TextCriterionIsContains(p: Product, key: string, v: string)
    requires IsTextKey(key) && v != []
    ensures Evaluate(p, Filter(key, v)) == Ok(Contains(ToLower(ValueOf(p, LookupField(key).value).s), ToLower(v)))
  {
    assert ValueOf(p, LookupField(key).value).Chars?;
  }

  /** Nor does the case of the attribute: two records whose attribute texts agree once
      lower-cased give the same answer. */
  lemma CaseOfAttributeIgnored(p: Product, q: Product, key: string, v: string)
    requires IsTextKey(key)
    requires ValueOf(p, LookupField(key).value).Chars? && ValueOf(q, LookupField(key).value).Chars?
    requires ToLower(ValueOf(p, LookupField(key).value).s) == ToLower(ValueOf(q, LookupField(key).value).s)
    ensures Evaluate(p, Filter(key, v)) == Evaluate(q, Filter(key, v))
  {
    if v != [] {
      TextCriterionIsContains(p, key, v);
      TextCriterionIsContains(q, key, v);
    }
  }

  /** On a text attribute a criterion holds exactly when its lower-cased value occurs in
      the lower-cased attribute. */
  lemma TextCriterionIsSubstring(p: Product, key: string, v: string)
    requires IsTextKey(key) && v != []
    ensures Evaluate(p, Filter(key, v)) == Ok(exists i :: OccursAt(ToLower(ValueOf(p, LookupField(key).value).s), ToLower(v), i))
  {
    var s := ValueOf(p, LookupField(key).value).s;
    TextCriterionIsContains(p, key, v);
    ContainsIffOccurs(ToLower(s), ToLower(v));
  }

  /** On a numeric attribute a criterion holds exactly when the value parses to the
      attribute's number; a value that does not parse raises the parse failure. */
  lemma NumericCriterionIsEquality(p: Product, key: string, v: string)
    requires LookupField(key).Some? && LookupField(key).value in {Price, Rating} && v != []
    ensures Evaluate(p, Filter(key, v)) ==
      match ParseNumber(v)
      case None => Err(NumberFormat(v))
      case Some(x) => Ok(ValueOf(p, LookupField(key).value) == Number(x))
  {
    var f := LookupField(key).value;
    assert ValueOf(p, f) == Number(if f == Price then p.price else p.rating);
  }
}
