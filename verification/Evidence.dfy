/** Feedback rows and their clusters: the (domain, folder) and (domain, label) groups candidate
    rules are built from. */
module Evidence {
  import opened Common
  import LogisticRegression

  datatype Polarity = Positive | Negative

  /** A filing decision: the columns the learning loop reads. */
  datatype FilingRow = FilingRow(
    id: string, messageId: string, senderDomain: Option<string>, chosenFolder: string, polarity: Polarity)

  /** A judgement on a classification, with the features that mattered. */
  datatype ClassificationRow = ClassificationRow(
    id: string, messageId: string, humanLabel: string,
    salientFeatures: map<string, LogisticRegression.FeatureValue>, polarity: Polarity)

  /** What a cluster is keyed by: the sender domain, and the folder or label. */
  datatype Key = Key(domain: string, value: string)

  predicate KeyLess(a: Key, b: Key) {
    Less(a.domain, b.domain) || (a.domain == b.domain && Less(a.value, b.value))
  }

  lemma KeyOrder(a: Key, b: Key)
    ensures !KeyLess(a, a) && (KeyLess(a, b) || a == b || KeyLess(b, a)) && !(KeyLess(a, b) && KeyLess(b, a))
  {
    LessIrreflexive(a.domain);
    LessIrreflexive(a.value);
    LessTotal(a.domain, b.domain);
    LessTotal(a.value, b.value);
    if Less(a.domain, b.domain) && Less(b.domain, a.domain) {
      LessTransitive(a.domain, b.domain, a.domain);
    }
    if Less(a.value, b.value) && Less(b.value, a.value) {
      LessTransitive(a.value, b.value, a.value);
    }
  }

  lemma KeyLessTransitive(a: Key, b: Key, c: Key)
    requires KeyLess(a, b) && KeyLess(b, c)
    ensures KeyLess(a, c)
  {
    if Less(a.domain, b.domain) && Less(b.domain, c.domain) {
      LessTransitive(a.domain, b.domain, c.domain);
    }
    if Less(a.value, b.value) && Less(b.value, c.value) {
      LessTransitive(a.value, b.value, c.value);
    }
  }

  /** The key of a filing row: rows without a sender domain have none. */
  function FilingKey(row: FilingRow): Option<Key> {
    match row.senderDomain
    case None => None
    case Some(domain) => Some(Key(domain, row.chosenFolder))
  }

  function ClassificationSenderDomain(row: ClassificationRow): Option<string> {
    if "sender_domain" in row.salientFeatures then
      match row.salientFeatures["sender_domain"]
      case Text(domain) => Some(domain)
      case _ => None
    else None
  }

  /** The key of a classification row: only corrections with a textual sender domain have one. */
  function ClassificationKey(row: ClassificationRow): Option<Key> {
    if row.polarity.Positive? then None
    else
      match ClassificationSenderDomain(row)
      case None => None
      case Some(domain) => Some(Key(domain, row.humanLabel))
  }

  // ---- groups -----------------------------------------------------------------------------

  /** The entries of an ordered map from keys to the rows collected under them. */
  datatype Group<T> = Group(key: Key, rows: seq<T>)

  /** Adds a row under its key, opening the group when the key is new. */
  function Push<T>(groups: seq<Group<T>>, key: Key, row: T): seq<Group<T>> {
    if groups == [] then [Group(key, [row])]
    else if groups[0].key == key then [Group(key, groups[0].rows + [row])] + groups[1..]
    else if KeyLess(key, groups[0].key) then [Group(key, [row])] + groups
    else [groups[0]] + Push(groups[1..], key, row)
  }

  function Cluster<T>(keyOf: T -> Option<Key>, rows: seq<T>): seq<Group<T>> {
    if rows == [] then []
    else
      var last := rows[|rows| - 1];
      var groups := Cluster(keyOf, rows[..|rows| - 1]);
      match keyOf(last)
      case None => groups
      case Some(key) => Push(groups, key, last)
  }

  method ClusterFiling(rows: seq<FilingRow>) returns (groups: seq<Group<FilingRow>>)
    ensures groups == Cluster(FilingKey, rows)
  {
    groups := [];
    for k := 0 to |rows|
      invariant groups == Cluster(FilingKey, rows[..k])
    {
      assert rows[..k + 1][..k] == rows[..k];
      if rows[k].senderDomain.None? {
        continue;
      }
      groups := Push(groups, Key(rows[k].senderDomain.value, rows[k].chosenFolder), rows[k]);
    }
    assert rows[..|rows|] == rows;
  }

  method ClusterClassification(rows: seq<ClassificationRow>) returns (groups: seq<Group<ClassificationRow>>)
    ensures groups == Cluster(ClassificationKey, rows)
  {
    groups := [];
    for k := 0 to |rows|
      invariant groups == Cluster(ClassificationKey, rows[..k])
    {
      assert rows[..k + 1][..k] == rows[..k];
      if rows[k].polarity != Negative {
        continue;
      }
      var domain := ClassificationSenderDomain(rows[k]);
      if domain.None? {
        continue;
      }
      groups := Push(groups, Key(domain.value, rows[k].humanLabel), rows[k]);
    }
    assert rows[..|rows|] == rows;
  }

  // ---- what a clustering is ---------------------------------------------------------------

  ghost predicate Ascending<T>(groups: seq<Group<T>>) {
    forall i, j :: 0 <= i < j < |groups| ==> KeyLess(groups[i].key, groups[j].key)
  }

  /** The rows with a key, in the order they came. */
  function Having<T>(keyOf: T -> Option<Key>, rows: seq<T>, key: Key): (r: seq<T>)
    ensures forall i :: 0 <= i < |r| ==> r[i] in rows && keyOf(r[i]) == Some(key)
    ensures forall i :: 0 <= i < |rows| && keyOf(rows[i]) == Some(key) ==> rows[i] in r
  {
    if rows == [] then []
    else
      var last := rows[|rows| - 1];
      assert rows == rows[..|rows| - 1] + [last];
      Having(keyOf, rows[..|rows| - 1], key) + if keyOf(last) == Some(key) then [last] else []
  }

  /** Strictly ascending keys; under each key exactly the rows that have it, in order, and at least
      one; and a group for every key that occurs. */
  ghost predicate IsClustering<T>(keyOf: T -> Option<Key>, rows: seq<T>, groups: seq<Group<T>>) {
    && Ascending(groups)
    && (forall i :: 0 <= i < |groups| ==>
          groups[i].rows != [] && groups[i].rows == Having(keyOf, rows, groups[i].key))
    && forall k :: 0 <= k < |rows| && keyOf(rows[k]).Some? ==> HasGroup(groups, keyOf(rows[k]).value)
  }

  predicate HasGroup<T>(groups: seq<Group<T>>, key: Key) {
    exists i | 0 <= i < |groups| :: groups[i].key == key
  }

  /** The rows under a key; none when the key has no group. */
  function RowsUnder<T>(groups: seq<Group<T>>, key: Key): seq<T> {
    if groups == [] then []
    else if groups[0].key == key then groups[0].rows
    else RowsUnder(groups[1..], key)
  }

  ghost predicate NoneEmpty<T>(groups: seq<Group<T>>) {
    forall i :: 0 <= i < |groups| ==> groups[i].rows != []
  }

  lemma {:induction false} UnderItsKey<T>(groups: seq<Group<T>>, i: nat)
    requires Ascending(groups) && i < |groups|
    ensures RowsUnder(groups, groups[i].key) == groups[i].rows
  {
    if i > 0 {
      KeyOrder(groups[0].key, groups[i].key);
      UnderItsKey(groups[1..], i - 1);
    }
  }

  lemma {:induction false} NotUnder<T>(groups: seq<Group<T>>, key: Key)
    requires !HasGroup(groups, key)
    ensures RowsUnder(groups, key) == []
  {
    if groups != [] {
      assert forall i :: 0 <= i < |groups[1..]| ==> groups[1..][i] == groups[i + 1];
      NotUnder(groups[1..], key);
    }
  }

  /** Every key of the new map is the pushed one or was there before. */
  lemma {:induction false} PushKeys<T>(groups: seq<Group<T>>, key: Key, row: T, i: nat)
    requires i < |Push(groups, key, row)|
    ensures var k := Push(groups, key, row)[i].key; k == key || HasGroup(groups, k)
    ensures NoneEmpty(groups) ==> Push(groups, key, row)[i].rows != []
  {
    var r := Push(groups, key, row);
    if groups == [] {
    } else if groups[0].key == key {
      assert i > 0 ==> r[i] == groups[i];
    } else if KeyLess(key, groups[0].key) {
      assert i > 0 ==> r[i] == groups[i - 1];
    } else if i > 0 {
      var tail := groups[1..];
      assert forall j :: 0 <= j < |tail| ==> tail[j] == groups[j + 1];
      PushKeys(tail, key, row, i - 1);
    }
  }

  lemma {:induction false} PushAscending<T>(groups: seq<Group<T>>, key: Key, row: T)
    requires Ascending(groups)
    ensures Ascending(Push(groups, key, row))
  {
    var r := Push(groups, key, row);
    if groups == [] || groups[0].key == key {
    } else if KeyLess(key, groups[0].key) {
      forall j | 0 < j < |groups|
        ensures KeyLess(key, groups[j].key)
      {
        KeyLessTransitive(key, groups[0].key, groups[j].key);
      }
    } else {
      var tail := groups[1..];
      assert Ascending(tail);
      PushAscending(tail, key, row);
      KeyOrder(key, groups[0].key);
      forall j | 0 <= j < |Push(tail, key, row)|
        ensures KeyLess(groups[0].key, Push(tail, key, row)[j].key)
      {
        PushKeys(tail, key, row, j);
      }
    }
  }

  lemma BelowTheFirst<T>(groups: seq<Group<T>>, key: Key)
    requires Ascending(groups) && groups != [] && KeyLess(key, groups[0].key)
    ensures !HasGroup(groups, key)
  {
    forall j | 0 <= j < |groups|
      ensures groups[j].key != key
    {
      if j > 0 {
        KeyLessTransitive(key, groups[0].key, groups[j].key);
      }
      KeyOrder(key, key);
    }
  }

  /** A push adds the row under its key, at the end, and changes no other key's rows. */
  lemma {:induction false} PushRows<T>(groups: seq<Group<T>>, key: Key, row: T, k: Key)
    requires Ascending(groups)
    ensures RowsUnder(Push(groups, key, row), k) == RowsUnder(groups, k) + if k == key then [row] else []
  {
    if groups == [] {
    } else if groups[0].key == key {
      assert Push(groups, key, row)[1..] == groups[1..];
    } else if KeyLess(key, groups[0].key) {
      assert Push(groups, key, row)[1..] == groups;
      if k == key {
        BelowTheFirst(groups, key);
        NotUnder(groups, key);
      }
    } else {
      assert Push(groups, key, row)[1..] == Push(groups[1..], key, row);
      PushRows(groups[1..], key, row, k);
    }
  }

  lemma {:induction false} ClusterInvariant<T>(keyOf: T -> Option<Key>, rows: seq<T>)
    ensures var groups := Cluster(keyOf, rows);
            Ascending(groups) && NoneEmpty(groups)
            && forall k: Key :: RowsUnder(groups, k) == Having(keyOf, rows, k)
  {
    if rows != [] {
      var init, last := rows[..|rows| - 1], rows[|rows| - 1];
      ClusterInvariant(keyOf, init);
      var before := Cluster(keyOf, init);
      if keyOf(last).Some? {
        var key := keyOf(last).value;
        PushAscending(before, key, last);
        forall i | 0 <= i < |Push(before, key, last)|
          ensures Push(before, key, last)[i].rows != []
        {
          PushKeys(before, key, last, i);
        }
        forall k: Key
          ensures RowsUnder(Push(before, key, last), k) == Having(keyOf, rows, k)
        {
          PushRows(before, key, last, k);
        }
      }
    }
  }

  /** The clusters come in strictly ascending key order, hold exactly the rows of their key in the
      order they came, are never empty, and cover every row that has a key. */
  lemma ClustersAreExact<T>(keyOf: T -> Option<Key>, rows: seq<T>)
    ensures IsClustering(keyOf, rows, Cluster(keyOf, rows))
  {
    var groups := Cluster(keyOf, rows);
    ClusterInvariant(keyOf, rows);
    forall i | 0 <= i < |groups|
      ensures groups[i].rows == Having(keyOf, rows, groups[i].key)
    {
      UnderItsKey(groups, i);
    }
    forall k | 0 <= k < |rows| && keyOf(rows[k]).Some?
      ensures HasGroup(groups, keyOf(rows[k]).value)
    {
      var key := keyOf(rows[k]).value;
      assert rows[k] in Having(keyOf, rows, key);
      if !HasGroup(groups, key) {
        NotUnder(groups, key);
      }
    }
  }

  // ---- nothing else is a clustering -------------------------------------------------------

  lemma KeysOfClustering<T>(keyOf: T -> Option<Key>, rows: seq<T>, groups: seq<Group<T>>, key: Key)
    requires IsClustering(keyOf, rows, groups)
    ensures HasGroup(groups, key) <==> Having(keyOf, rows, key) != []
  {
    if Having(keyOf, rows, key) != [] {
      var row := Having(keyOf, rows, key)[0];
      var k :| 0 <= k < |rows| && rows[k] == row;
    }
  }

  /** Two ascending lists of keys with the same members are the same list. */
  lemma {:induction false} AscendingIsUnique<T, U>(a: seq<Group<T>>, b: seq<Group<U>>)
    requires Ascending(a) && Ascending(b)
    requires forall key: Key :: HasGroup(a, key) <==> HasGroup(b, key)
    ensures |a| == |b| && forall i :: 0 <= i < |a| ==> a[i].key == b[i].key
  {
    if a == [] {
      assert b != [] ==> HasGroup(b, b[0].key);
    } else {
      assert HasGroup(a, a[0].key);
      FirstKeysAgree(a, b);
      forall key: Key
        ensures HasGroup(a[1..], key) <==> HasGroup(b[1..], key)
      {
        TailKeys(a, key);
        TailKeys(b, key);
      }
      AscendingIsUnique(a[1..], b[1..]);
      assert forall i :: 0 < i < |a| ==> a[i] == a[1..][i - 1];
      assert forall i :: 0 < i < |b| ==> b[i] == b[1..][i - 1];
    }
  }

  lemma FirstKeysAgree<T, U>(a: seq<Group<T>>, b: seq<Group<U>>)
    requires Ascending(a) && Ascending(b) && a != []
    requires forall key: Key :: HasGroup(a, key) <==> HasGroup(b, key)
    ensures b != [] && a[0].key == b[0].key
  {
    assert HasGroup(a, a[0].key);
    assert HasGroup(b, b[0].key);
    var i :| 0 <= i < |b| && b[i].key == a[0].key;
    var j :| 0 <= j < |a| && a[j].key == b[0].key;
    KeyOrder(a[0].key, b[0].key);
  }

  lemma TailKeys<T>(a: seq<Group<T>>, key: Key)
    requires Ascending(a) && a != []
    ensures HasGroup(a[1..], key) <==> HasGroup(a, key) && key != a[0].key
  {
    KeyOrder(key, key);
    if HasGroup(a, key) && key != a[0].key {
      var i :| 0 <= i < |a| && a[i].key == key;
      assert a[1..][i - 1].key == key;
    }
    if HasGroup(a[1..], key) {
      var i :| 0 <= i < |a[1..]| && a[1..][i].key == key;
      assert a[i + 1].key == key;
    }
  }

  /** The clustering of rows is unique. */
  lemma ClusteringIsUnique<T>(keyOf: T -> Option<Key>, rows: seq<T>, groups: seq<Group<T>>)
    requires IsClustering(keyOf, rows, groups)
    ensures groups == Cluster(keyOf, rows)
  {
    var other := Cluster(keyOf, rows);
    ClustersAreExact(keyOf, rows);
    forall key: Key
      ensures HasGroup(groups, key) <==> HasGroup(other, key)
    {
      KeysOfClustering(keyOf, rows, groups, key);
      KeysOfClustering(keyOf, rows, other, key);
    }
    AscendingIsUnique(groups, other);
    assert forall i :: 0 <= i < |groups| ==> groups[i] == other[i];
  }

  lemma {:induction false} HavingKeepsMembers<T>(keyOf: T -> Option<Key>, rows: seq<T>, key: Key, row: T)
    ensures multiset(Having(keyOf, rows, key))[row] == if keyOf(row) == Some(key) then multiset(rows)[row] else 0
  {
    if rows != [] {
      var init, last := rows[..|rows| - 1], rows[|rows| - 1];
      HavingKeepsMembers(keyOf, init, key, row);
      assert rows == init + [last];
    }
  }

  /** The clusters do not depend on the order of the input: reordered rows give the same keys in
      the same order, each with the same rows up to order. */
  lemma ClustersIgnoreOrder<T>(keyOf: T -> Option<Key>, rows: seq<T>, others: seq<T>)
    requires multiset(rows) == multiset(others)
    ensures var a, b := Cluster(keyOf, rows), Cluster(keyOf, others);
            && |a| == |b|
            && forall i :: 0 <= i < |a| ==> a[i].key == b[i].key && multiset(a[i].rows) == multiset(b[i].rows)
  {
    var a, b := Cluster(keyOf, rows), Cluster(keyOf, others);
    ClustersAreExact(keyOf, rows);
    ClustersAreExact(keyOf, others);
    forall key: Key
      ensures multiset(Having(keyOf, rows, key)) == multiset(Having(keyOf, others, key))
      ensures HasGroup(a, key) <==> HasGroup(b, key)
    {
      HavingReordered(keyOf, rows, others, key);
      KeysOfClustering(keyOf, rows, a, key);
      KeysOfClustering(keyOf, others, b, key);
    }
    AscendingIsUnique(a, b);
  }

  lemma HavingReordered<T>(keyOf: T -> Option<Key>, rows: seq<T>, others: seq<T>, key: Key)
    requires multiset(rows) == multiset(others)
    ensures multiset(Having(keyOf, rows, key)) == multiset(Having(keyOf, others, key))
    ensures Having(keyOf, rows, key) == [] <==> Having(keyOf, others, key) == []
  {
    var x, y := multiset(Having(keyOf, rows, key)), multiset(Having(keyOf, others, key));
    forall row | row in x || row in y
      ensures x[row] == y[row]
    {
      HavingKeepsMembers(keyOf, rows, key, row);
      HavingKeepsMembers(keyOf, others, key, row);
    }
    assert x == y;
    assert |x| == |Having(keyOf, rows, key)| && |y| == |Having(keyOf, others, key)|;
  }

  /** The clusters partition the rows that have a key: each row is in the one cluster of its key,
      as often as in the input, and rows without a key are in none. */
  lemma ClustersPartition<T>(keyOf: T -> Option<Key>, rows: seq<T>, i: nat, row: T)
    requires i < |Cluster(keyOf, rows)|
    ensures var group := Cluster(keyOf, rows)[i];
            multiset(group.rows)[row] == if keyOf(row) == Some(group.key) then multiset(rows)[row] else 0
  {
    ClustersAreExact(keyOf, rows);
    HavingKeepsMembers(keyOf, rows, Cluster(keyOf, rows)[i].key, row);
  }
}
