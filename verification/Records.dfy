/** Which fields of a message stand in its record. */
module Records {
  import opened Prelude
  import opened Order
  import opened Wit
  import opened Descriptors
  import opened Schema

  predicate DistinctNumbers(fields: seq<FieldDescriptor>) {
    forall j, k :: 0 <= j < k < |fields| ==> fields[j].number != fields[k].number
  }

  lemma PrecedesOrders(fields: seq<FieldDescriptor>)
    requires DistinctNumbers(fields)
    ensures Orders(Precedes, fields)
  {
    forall f: FieldDescriptor, g: FieldDescriptor
      ensures Precedes(f, g) || Precedes(g, f)
    {
      BelowTotal(f.fullName, g.fullName);
    }
    forall f, g | f in fields && g in fields && Precedes(f, g) && Precedes(g, f)
      ensures f == g
    {
      var j :| 0 <= j < |fields| && fields[j] == f;
      var k :| 0 <= k < |fields| && fields[k] == g;
    }
    forall f: FieldDescriptor, g: FieldDescriptor, h: FieldDescriptor | Precedes(f, g) && Precedes(g, h)
      ensures Precedes(f, h)
    {
      if f.number == g.number == h.number {
        BelowTransitive(f.fullName, g.fullName, h.fullName);
      }
    }
  }

  /** Strictly increasing field numbers. */
  predicate Increasing(s: seq<FieldDescriptor>) {
    forall j, k :: 0 <= j < k < |s| ==> s[j].number < s[k].number
  }

  lemma InNumberOrderIncreases(fields: seq<FieldDescriptor>)
    requires DistinctNumbers(fields)
    ensures Increasing(InNumberOrder(fields))
  {
    var sorted := InNumberOrder(fields);
    PrecedesOrders(fields);
    SortSorted(fields, Precedes);
    forall j, k | 0 <= j < k < |sorted|
      ensures sorted[j].number < sorted[k].number
    {
      if sorted[j].number == sorted[k].number {
        OnceEach(fields, sorted, j, k);
      }
    }
  }

  lemma OccursOnce(fields: seq<FieldDescriptor>, a: nat)
    requires DistinctNumbers(fields) && a < |fields|
    ensures multiset(fields)[fields[a]] == 1
  {
    assert fields == fields[..a] + [fields[a]] + fields[a + 1..];
    assert fields[a] !in fields[..a] && fields[a] !in fields[a + 1..];
  }

  lemma OccursTwice(s: seq<FieldDescriptor>, j: nat, k: nat)
    requires j < k < |s| && s[j] == s[k]
    ensures multiset(s)[s[j]] >= 2
  {
    assert s == s[..j] + [s[j]] + s[j + 1..k] + [s[k]] + s[k + 1..];
  }

  /** Elements with distinct numbers stay distinct when rearranged. */
  lemma OnceEach(fields: seq<FieldDescriptor>, sorted: seq<FieldDescriptor>, j: nat, k: nat)
    requires DistinctNumbers(fields) && multiset(fields) == multiset(sorted) && j < k < |sorted|
    ensures sorted[j].number != sorted[k].number
  {
    assert sorted[j] in multiset(fields) && sorted[k] in multiset(fields);
    var a :| 0 <= a < |fields| && fields[a] == sorted[j];
    var b :| 0 <= b < |fields| && fields[b] == sorted[k];
    OccursOnce(fields, a);
    if sorted[j] == sorted[k] {
      OccursTwice(sorted, j, k);
    }
  }

  lemma {:induction false} LeaderMember(s: seq<FieldDescriptor>, f: FieldDescriptor)
    ensures f in Leaders(s) <==> exists j :: 0 <= j < |s| && s[j] == f && Leads(s, j)
  {
    if s != [] {
      var n := |s| - 1;
      var before := s[..n];
      LeaderMember(before, f);
      forall j | 0 <= j < n
        ensures Leads(before, j) <==> Leads(s, j)
      {
        assert forall k :: 0 <= k <= j ==> before[k] == s[k];
      }
      if j :| 0 <= j < n && before[j] == f && Leads(before, j) {
        assert s[j] == f && Leads(s, j);
      }
      if j :| 0 <= j < |s| && s[j] == f && Leads(s, j) {
        assert j < n ==> before[j] == f && Leads(before, j);
      }
    }
  }

  lemma {:induction false} LeadersIncrease(s: seq<FieldDescriptor>)
    requires Increasing(s)
    ensures Increasing(Leaders(s))
  {
    if s != [] {
      var n := |s| - 1;
      LeadersIncrease(s[..n]);
      forall j | 0 <= j < |Leaders(s[..n])|
        ensures Leaders(s[..n])[j].number < s[n].number
      {
        LeaderMember(s[..n], Leaders(s[..n])[j]);
      }
    }
  }

  /** Some member of its oneof comes first. */
  lemma {:induction false} FirstOfOneof(s: seq<FieldDescriptor>, j: nat) returns (first: nat)
    requires j < |s| && Real(s[j])
    ensures first <= j && Real(s[first]) && s[first].oneof.value.fullName == s[j].oneof.value.fullName
    ensures Leads(s, first)
  {
    if k :| 0 <= k < j && Real(s[k]) && s[k].oneof.value.fullName == s[j].oneof.value.fullName {
      first := FirstOfOneof(s, k);
    } else {
      first := j;
    }
  }

  predicate SameOneof(f: FieldDescriptor, g: FieldDescriptor) {
    Real(f) && Real(g) && f.oneof.value.fullName == g.oneof.value.fullName
  }

  /** The record of a message has an entry, in increasing order of field numbers, for each ordinary field and for the
      lowest-numbered member of each real oneof, and no other entries. */
  lemma LeadingFieldsExactly(r: Registry, m: FullName)
    requires Linked(r) && m in r.messages
    ensures var fields, leading := r.messages[m].fields, LeadingFields(r, m);
            && Increasing(leading)
            && (forall f :: f in leading <==> f in fields && forall g :: g in fields && SameOneof(f, g) ==>
                 f.number <= g.number)
  {
    var fields, leading := r.messages[m].fields, LeadingFields(r, m);
    var sorted := InNumberOrder(fields);
    assert MessageLinked(r, r.messages[m]);
    InNumberOrderIncreases(fields);
    LeadersIncrease(sorted);
    forall f
      ensures f in leading <==> f in fields && forall g :: g in fields && SameOneof(f, g) ==> f.number <= g.number
    {
      LeaderMember(sorted, f);
      LeadsIffLowest(fields, f);
    }
  }

  lemma LeadsIffLowest(fields: seq<FieldDescriptor>, f: FieldDescriptor)
    requires DistinctNumbers(fields)
    ensures var s := InNumberOrder(fields);
            (exists j :: 0 <= j < |s| && s[j] == f && Leads(s, j))
            <==> f in fields && forall g :: g in fields && SameOneof(f, g) ==> f.number <= g.number
  {
    var s := InNumberOrder(fields);
    InNumberOrderIncreases(fields);
    forall g
      ensures g in s <==> g in fields
    {
      SortMembers(fields, Precedes, g);
    }
    if j :| 0 <= j < |s| && s[j] == f && Leads(s, j) {
      forall g | g in fields && SameOneof(f, g)
        ensures f.number <= g.number
      {
        var k :| 0 <= k < |s| && s[k] == g;
      }
    }
    if f in fields && forall g :: g in fields && SameOneof(f, g) ==> f.number <= g.number {
      var j :| 0 <= j < |s| && s[j] == f;
      forall k | 0 <= k < j && Real(s[k]) && Real(f)
        ensures s[k].oneof.value.fullName != f.oneof.value.fullName
      {
        assert s[k] in fields;
      }
      assert Leads(s, j);
    }
  }

  /** Every real oneof with a member has an entry. */
  lemma OneofHasEntry(r: Registry, m: FullName, f: FieldDescriptor)
    requires m in r.messages && f in r.messages[m].fields && Real(f)
    ensures exists j :: 0 <= j < |LeadingFields(r, m)| && SameOneof(LeadingFields(r, m)[j], f)
  {
    var sorted := InNumberOrder(r.messages[m].fields);
    SortMembers(r.messages[m].fields, Precedes, f);
    var j :| 0 <= j < |sorted| && sorted[j] == f;
    var first := FirstOfOneof(sorted, j);
    LeaderMember(sorted, sorted[first]);
    assert sorted[first] in LeadingFields(r, m);
  }

  lemma {:induction false} MembersMember(fields: seq<FieldDescriptor>, o: OneofDescriptor, f: FieldDescriptor)
    ensures f in MembersOf(fields, o) <==> f in fields && f.oneof == Some(o)
  {
    if fields != [] {
      var n := |fields| - 1;
      MembersMember(fields[..n], o, f);
      assert fields == fields[..n] + [fields[n]];
    }
  }

  /** Every entry stands for a field of the message. */
  lemma LeadingFieldsFrom(r: Registry, m: FullName, f: FieldDescriptor)
    requires m in r.messages && f in LeadingFields(r, m)
    ensures f in r.messages[m].fields
  {
    var sorted := InNumberOrder(r.messages[m].fields);
    LeaderMember(sorted, f);
    SortMembers(r.messages[m].fields, Precedes, f);
  }
}
