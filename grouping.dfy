/** The grouping stage: `group_courses_by(courses, "instructor.name")`
    buckets the course list by instructor name into an insertion-ordered
    dictionary. The dictionary is modelled as its key order, a sequence,
    beside a map from key to bucket. */
module Grouping {
  import opened Wrappers
  import opened Records

  /** Every course carries an instructor, so `course.instructor.name` can be
      resolved; on a course without one the source raises. */
  predicate AllHaveInstructor(cs: seq<CourseInfo>)
  {
    forall i :: 0 <= i < |cs| ==> cs[i].instructor.Some?
  }

  /** The grouping key, the dotted path `instructor.name`. */
  function Key(c: CourseInfo): string
    requires c.instructor.Some?
  {
    c.instructor.value.name
  }

  /** The bucket of `k`: the courses of `cs` whose key is `k`, in their
      order in `cs`. */
  function Members(cs: seq<CourseInfo>, k: string): (bucket: seq<CourseInfo>)
    requires AllHaveInstructor(cs)
    ensures forall j :: 0 <= j < |bucket| ==> bucket[j].instructor.Some? && Key(bucket[j]) == k
    decreases |cs|
  {
    if cs == [] then []
    else
      var last := cs[|cs| - 1];
      Members(cs[..|cs| - 1], k) + (if Key(last) == k then [last] else [])
  }

  /** The keys of `cs`, each once, in the order of their first occurrence. */
  function FirstSeenKeys(cs: seq<CourseInfo>): seq<string>
    requires AllHaveInstructor(cs)
    decreases |cs|
  {
    if cs == [] then []
    else
      var keys := FirstSeenKeys(cs[..|cs| - 1]);
      var k := Key(cs[|cs| - 1]);
      if k in keys then keys else keys + [k]
  }

  /** The buckets of `keys`, one after the other. */
  function Concat(keys: seq<string>, cs: seq<CourseInfo>): seq<CourseInfo>
    requires AllHaveInstructor(cs)
    decreases |keys|
  {
    if keys == [] then [] else Members(cs, keys[0]) + Concat(keys[1..], cs)
  }

  /** `group_courses_by`: one pass over the courses, appending each to the
      bucket of its key and opening a new bucket, at the end of the key
      order, for a key not seen before. */
  method GroupCoursesBy(courses: seq<CourseInfo>) returns (keys: seq<string>, groups: map<string, seq<CourseInfo>>)
    requires AllHaveInstructor(courses)
    ensures keys == FirstSeenKeys(courses)
    ensures forall k :: k in groups <==> k in keys
    ensures forall k :: k in groups ==> groups[k] == Members(courses, k)
  {
    keys, groups := [], map[];
    for i := 0 to |courses|
      invariant keys == FirstSeenKeys(courses[..i])
      invariant forall k :: k in groups <==> k in keys
      invariant forall k :: k in groups ==> groups[k] == Members(courses[..i], k)
    {
      var course := courses[i];
      var k := Key(course);
      assert courses[..i + 1] == courses[..i] + [course];
      forall k' ensures Members(courses[..i + 1], k') == Members(courses[..i], k') + (if k == k' then [course] else []) {
        MembersSnoc(courses[..i], course, k');
      }
      if k in groups {
        groups := groups[k := groups[k] + [course]];
      } else {
        MembersNonEmpty(courses[..i], k);
        keys := keys + [k];
        groups := groups[k := [course]];
      }
    }
    assert courses[..|courses|] == courses;
  }

  // ---------------------------------------------------------------------
  // What the grouping promises
  // ---------------------------------------------------------------------

  /** Buckets preserve order: the bucket of a concatenation is the bucket of
      the first part followed by the bucket of the second. */
  lemma {:induction false} MembersAppend(a: seq<CourseInfo>, b: seq<CourseInfo>, k: string)
    requires AllHaveInstructor(a) && AllHaveInstructor(b)
    ensures AllHaveInstructor(a + b)
    ensures Members(a + b, k) == Members(a, k) + Members(b, k)
    decreases |b|
  {
    assert AllHaveInstructor(a + b) by {
      forall i | 0 <= i < |a + b| ensures (a + b)[i].instructor.Some? {
        if i < |a| { assert (a + b)[i] == a[i]; } else { assert (a + b)[i] == b[i - |a|]; }
      }
    }
    if b == [] {
      assert a + b == a;
    } else {
      var init := b[..|b| - 1];
      assert (a + b)[..|a + b| - 1] == a + init;
      MembersAppend(a, init, k);
    }
  }

  /** Adding a course at the end adds it to its own bucket only. */
  lemma MembersSnoc(cs: seq<CourseInfo>, x: CourseInfo, k: string)
    requires AllHaveInstructor(cs) && x.instructor.Some?
    ensures AllHaveInstructor(cs + [x])
    ensures Members(cs + [x], k) == Members(cs, k) + (if Key(x) == k then [x] else [])
  {
    assert (cs + [x])[..|cs|] == cs;
    assert forall i :: 0 <= i < |cs| ==> (cs + [x])[i] == cs[i];
  }

  /** A key is listed exactly when some course has it. */
  lemma {:induction false} KeysPresent(cs: seq<CourseInfo>, k: string)
    requires AllHaveInstructor(cs)
    ensures k in FirstSeenKeys(cs) <==> exists i :: 0 <= i < |cs| && Key(cs[i]) == k
    decreases |cs|
  {
    if cs != [] {
      var init := cs[..|cs| - 1];
      KeysPresent(init, k);
      if exists i :: 0 <= i < |cs| && Key(cs[i]) == k {
        var i :| 0 <= i < |cs| && Key(cs[i]) == k;
        if i < |init| {
          assert init[i] == cs[i];
        }
      }
      if exists i :: 0 <= i < |init| && Key(init[i]) == k {
        var i :| 0 <= i < |init| && Key(init[i]) == k;
        assert cs[i] == init[i];
      }
    }
  }

  /** The keys of a sequence, each listed once. */
  predicate Distinct(keys: seq<string>)
  {
    forall a, b :: 0 <= a < b < |keys| ==> keys[a] != keys[b]
  }

  /** No key is listed twice. */
  lemma {:induction false} KeysDistinct(cs: seq<CourseInfo>)
    requires AllHaveInstructor(cs)
    ensures Distinct(FirstSeenKeys(cs))
    decreases |cs|
  {
    if cs != [] {
      var before := FirstSeenKeys(cs[..|cs| - 1]);
      var k := Key(cs[|cs| - 1]);
      KeysDistinct(cs[..|cs| - 1]);
      if k !in before {
        var keys := before + [k];
        forall a, b | 0 <= a < b < |keys| ensures keys[a] != keys[b] {
          assert keys[a] == before[a] && before[a] in before;
          if b < |before| {
            assert keys[b] == before[b];
          }
        }
      }
    }
  }

  /** A bucket is non-empty exactly when its key is listed. */
  lemma {:induction false} MembersNonEmpty(cs: seq<CourseInfo>, k: string)
    requires AllHaveInstructor(cs)
    ensures Members(cs, k) != [] <==> k in FirstSeenKeys(cs)
    decreases |cs|
  {
    if cs != [] {
      MembersNonEmpty(cs[..|cs| - 1], k);
    }
  }

  /** Keys come in first-seen order: the first course with an earlier key
      comes before every course with a later key. */
  lemma {:induction false} FirstSeenOrder(cs: seq<CourseInfo>, a: nat, b: nat, q: nat)
    requires AllHaveInstructor(cs)
    requires a < b < |FirstSeenKeys(cs)|
    requires q < |cs| && Key(cs[q]) == FirstSeenKeys(cs)[b]
    ensures exists p :: 0 <= p < q && Key(cs[p]) == FirstSeenKeys(cs)[a]
    decreases |cs|
  {
    var init := cs[..|cs| - 1];
    var before := FirstSeenKeys(init);
    var keys := FirstSeenKeys(cs);
    assert keys[..|before|] == before;
    var ka := keys[a];
    if q < |init| {
      assert init[q] == cs[q];
      assert Key(init[q]) == keys[b];
      KeysPresent(init, keys[b]);
      assert b < |before|;
      FirstSeenOrder(init, a, b, q);
      var p :| 0 <= p < q && Key(init[p]) == before[a];
      assert cs[p] == init[p];
    } else {
      assert a < |before|;
      assert ka in before;
      KeysPresent(init, ka);
      var p :| 0 <= p < |init| && Key(init[p]) == ka;
      assert cs[p] == init[p];
      if b < |before| {
        KeysPresent(init, keys[b]);
        var q' :| 0 <= q' < |init| && Key(init[q']) == keys[b];
        assert init[q'] == cs[q'];
        FirstSeenOrder(init, a, b, q');
        var p' :| 0 <= p' < q' && Key(init[p']) == before[a];
        assert cs[p'] == init[p'];
      }
    }
  }

  lemma {:induction false} ConcatAppend(k1: seq<string>, k2: seq<string>, cs: seq<CourseInfo>)
    requires AllHaveInstructor(cs)
    ensures Concat(k1 + k2, cs) == Concat(k1, cs) + Concat(k2, cs)
    decreases |k1|
  {
    if k1 == [] {
      assert k1 + k2 == k2;
    } else {
      assert (k1 + k2)[1..] == k1[1..] + k2;
      ConcatAppend(k1[1..], k2, cs);
    }
  }

  /** Adding one course to the end adds it to its own bucket and to no
      other, so the buckets of distinct keys gain it at most once. */
  lemma {:induction false} ConcatSnoc(keys: seq<string>, cs: seq<CourseInfo>, x: CourseInfo)
    requires AllHaveInstructor(cs) && x.instructor.Some?
    requires Distinct(keys)
    ensures AllHaveInstructor(cs + [x])
    ensures multiset(Concat(keys, cs + [x]))
         == multiset(Concat(keys, cs)) + (if Key(x) in keys then multiset{x} else multiset{})
    decreases |keys|
  {
    MembersSnoc(cs, x, Key(x));
    if keys != [] {
      var k0, rest := keys[0], keys[1..];
      DistinctSplit(keys, Key(x));
      ConcatSnoc(rest, cs, x);
      MembersSnoc(cs, x, k0);
      var own, others := Members(cs, k0), Concat(rest, cs);
      assert Concat(keys, cs) == own + others;
      assert Concat(keys, cs + [x]) == Members(cs + [x], k0) + Concat(rest, cs + [x]);
    }
  }

  /** In a list without repetitions a key is either the head or in the tail,
      never both. */
  lemma DistinctSplit(keys: seq<string>, k: string)
    requires Distinct(keys) && keys != []
    ensures Distinct(keys[1..])
    ensures (if k in keys then multiset{k} else multiset{})
         == (if k == keys[0] then multiset{k} else multiset{}) + (if k in keys[1..] then multiset{k} else multiset{})
  {
    assert forall j :: 0 <= j < |keys[1..]| ==> keys[1..][j] == keys[j + 1];
    assert k in keys <==> k == keys[0] || k in keys[1..];
  }

  /** The grouping is a partition: laying the buckets end to end in key
      order gives a permutation of the input, so every course lands in
      exactly one bucket. */
  lemma {:induction false} GroupingIsPartition(cs: seq<CourseInfo>)
    requires AllHaveInstructor(cs)
    ensures multiset(Concat(FirstSeenKeys(cs), cs)) == multiset(cs)
    decreases |cs|
  {
    if cs != [] {
      var init, x := cs[..|cs| - 1], cs[|cs| - 1];
      assert cs == init + [x];
      var before := FirstSeenKeys(init);
      GroupingIsPartition(init);
      KeysDistinct(init);
      ConcatSnoc(before, init, x);
      if Key(x) !in before {
        ConcatAppend(before, [Key(x)], cs);
        MembersNonEmpty(init, Key(x));
        MembersAppend(init, [x], Key(x));
        assert [x][..0] == [];
        assert Concat([Key(x)], cs) == Members(cs, Key(x)) == [x];
      }
    }
  }

  /** Each bucket opens with the first course that has its key, so a bucket
      is never empty and its first course carries the instructor whose name
      is the key. */
  lemma {:induction false} BucketOpensWithKey(cs: seq<CourseInfo>, k: string)
    requires AllHaveInstructor(cs)
    requires k in FirstSeenKeys(cs)
    ensures Members(cs, k) != []
    ensures Members(cs, k)[0].instructor.Some? && Members(cs, k)[0].instructor.value.name == k
  {
    MembersNonEmpty(cs, k);
  }
}
