/** Which events a subscription asks for. */
module Filters {
  import opened Wrappers

  datatype Event = Event(id: Option<string>, pubkey: Option<string>, kind: Option<int>,
                         createdAt: Option<int>, tags: seq<seq<string>>)

  /** The tag conditions are keyed by tag name, without the leading number sign. */
  datatype Filter = Filter(kinds: Option<seq<int>>, authors: Option<seq<string>>, ids: Option<seq<string>>,
                           since: Option<int>, tags: map<string, seq<string>>)

  predicate ValueAllowed<T(==)>(value: Option<T>, allowed: Option<seq<T>>) {
    allowed.None? || (value.Some? && value.value in allowed.value)
  }

  predicate HasTag(e: Event, name: string, values: seq<string>) {
    exists i :: 0 <= i < |e.tags| && |e.tags[i]| > 1 && e.tags[i][0] == name && e.tags[i][1] in values
  }

  predicate EventMatchesFilter(e: Event, f: Filter) {
    && ValueAllowed(e.kind, f.kinds)
    && ValueAllowed(e.pubkey, f.authors)
    && ValueAllowed(e.id, f.ids)
    && (f.since.None? || (if e.createdAt.Some? then e.createdAt.value else 0) >= f.since.value)
    && forall name :: name in f.tags ==> HasTag(e, name, f.tags[name])
  }

  predicate MatchesAny(e: Event, filters: seq<Filter>) {
    exists i :: 0 <= i < |filters| && EventMatchesFilter(e, filters[i])
  }

  // ---------------------------------------------------------------------------------------------
  // What a filter asks for
  // ---------------------------------------------------------------------------------------------

  const EVERYTHING := Filter(None, None, None, None, map[])

  /** A single condition accepts exactly the events whose own field fits. */
  lemma OneKind(e: Event, kinds: seq<int>)
    ensures EventMatchesFilter(e, EVERYTHING.(kinds := Some(kinds))) <==> exists k :: k in kinds && e.kind == Some(k)
  {
    if EventMatchesFilter(e, EVERYTHING.(kinds := Some(kinds))) {
      var k := e.kind.value;
      assert k in kinds && e.kind == Some(k);
    }
  }

  lemma OneAuthor(e: Event, authors: seq<string>)
    ensures EventMatchesFilter(e, EVERYTHING.(authors := Some(authors))) <==> exists a :: a in authors && e.pubkey == Some(a)
  {
  }

  lemma OneId(e: Event, ids: seq<string>)
    ensures EventMatchesFilter(e, EVERYTHING.(ids := Some(ids))) <==> exists id :: id in ids && e.id == Some(id)
  {
  }

  /** An event without a time counts as one of time zero. */
  lemma OneTime(e: Event, since: int)
    ensures EventMatchesFilter(e, EVERYTHING.(since := Some(since))) <==>
            (e.createdAt.None? && since <= 0) || exists t :: e.createdAt == Some(t) && since <= t
  {
  }

  predicate Carries(e: Event, name: string, value: string) {
    exists i :: 0 <= i < |e.tags| && [name, value] <= e.tags[i]
  }

  lemma OneTag(e: Event, name: string, values: seq<string>)
    ensures EventMatchesFilter(e, EVERYTHING.(tags := map[name := values])) <==>
            exists v :: v in values && Carries(e, name, v)
  {
    var f := EVERYTHING.(tags := map[name := values]);
    assert EventMatchesFilter(e, f) <==> HasTag(e, name, values) by {
      assert name in f.tags;
    }
    if HasTag(e, name, values) {
      var i :| 0 <= i < |e.tags| && |e.tags[i]| > 1 && e.tags[i][0] == name && e.tags[i][1] in values;
      assert [name, e.tags[i][1]] <= e.tags[i];
      assert Carries(e, name, e.tags[i][1]);
    }
    if v :| v in values && Carries(e, name, v) {
      var i :| 0 <= i < |e.tags| && [name, v] <= e.tags[i];
      assert e.tags[i][0] == [name, v][0] && e.tags[i][1] == [name, v][1];
    }
  }

  /** A filter accepts what each of its single conditions accepts. */
  lemma EachCondition(e: Event, f: Filter)
    ensures EventMatchesFilter(e, f) <==>
            && EventMatchesFilter(e, EVERYTHING.(kinds := f.kinds))
            && EventMatchesFilter(e, EVERYTHING.(authors := f.authors))
            && EventMatchesFilter(e, EVERYTHING.(ids := f.ids))
            && EventMatchesFilter(e, EVERYTHING.(since := f.since))
            && forall name :: name in f.tags ==> EventMatchesFilter(e, EVERYTHING.(tags := map[name := f.tags[name]]))
  {
    forall name | name in f.tags
      ensures EventMatchesFilter(e, EVERYTHING.(tags := map[name := f.tags[name]])) <==> HasTag(e, name, f.tags[name])
    {
      assert name in map[name := f.tags[name]];
    }
  }

  /** Fields the filter does not name make no difference. */
  lemma OtherFieldsAreFree(a: Event, b: Event, f: Filter)
    requires f.kinds.Some? ==> a.kind == b.kind
    requires f.authors.Some? ==> a.pubkey == b.pubkey
    requires f.ids.Some? ==> a.id == b.id
    requires f.since.Some? ==> a.createdAt == b.createdAt
    requires f.tags != map[] ==> a.tags == b.tags
    ensures EventMatchesFilter(a, f) <==> EventMatchesFilter(b, f)
  {
  }

  /** Whatever the filter names, the event's own field fits. */
  ghost predicate AsksFor(f: Filter, e: Event) {
    && (f.kinds.Some? ==> exists k :: k in f.kinds.value && e.kind == Some(k))
    && (f.authors.Some? ==> exists a :: a in f.authors.value && e.pubkey == Some(a))
    && (f.ids.Some? ==> exists id :: id in f.ids.value && e.id == Some(id))
    && (f.since.Some? ==> (e.createdAt.None? && f.since.value <= 0) || exists t :: e.createdAt == Some(t) && f.since.value <= t)
    && forall name :: name in f.tags ==> exists v :: v in f.tags[name] && Carries(e, name, v)
  }

  ghost predicate Wanted(e: Event, filters: seq<Filter>) {
    exists f :: f in filters && AsksFor(f, e)
  }

  lemma MatchesIff(e: Event, f: Filter)
    ensures EventMatchesFilter(e, f) <==> AsksFor(f, e)
  {
    EachCondition(e, f);
    if f.kinds.Some? { OneKind(e, f.kinds.value); }
    if f.authors.Some? { OneAuthor(e, f.authors.value); }
    if f.ids.Some? { OneId(e, f.ids.value); }
    if f.since.Some? { OneTime(e, f.since.value); }
    forall name | name in f.tags
      ensures EventMatchesFilter(e, EVERYTHING.(tags := map[name := f.tags[name]])) <==>
              exists v :: v in f.tags[name] && Carries(e, name, v)
    {
      OneTag(e, name, f.tags[name]);
    }
  }

  /** A request accepts what one of its filters accepts, and so what one of them asks for. */
  lemma MatchesWanted(e: Event, filters: seq<Filter>)
    ensures MatchesAny(e, filters) <==> exists f :: f in filters && EventMatchesFilter(e, f)
    ensures MatchesAny(e, filters) <==> Wanted(e, filters)
  {
    forall f ensures EventMatchesFilter(e, f) <==> AsksFor(f, e) {
      MatchesIff(e, f);
    }
  }
}
