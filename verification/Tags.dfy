/** Cloudflare record tags: canonical keys, set equality and reconciliation across several records. */
module Tags {
  import opened Sorting

  function LowerChar(c: char): char {
    if 'A' <= c <= 'Z' then c + 32 as char else c
  }

  function Lower(s: string): string {
    seq(|s|, i requires 0 <= i < |s| => LowerChar(s[i]))
  }

  /** Index of the first occurrence of c in s, or |s|. */
  function IndexOf(s: string, c: char): (k: nat)
    ensures k <= |s|
    ensures k < |s| ==> s[k] == c
    ensures forall j :: 0 <= j < k ==> s[j] != c
  {
    if |s| == 0 || s[0] == c then 0 else 1 + IndexOf(s[1..], c)
  }

  /** Tag names fold case, tag values do not. */
  function CanonicalKey(tag: string): string {
    var k := IndexOf(tag, ':');
    if k == |tag| then Lower(tag) else Lower(tag[..k]) + ":" + tag[k + 1..]
  }

  /** The same letter, in either case. */
  predicate SameLetter(c: char, d: char) {
    c == d || ('A' <= c <= 'Z' && d as int == c as int + 32) || ('A' <= d <= 'Z' && c as int == d as int + 32)
  }

  /** The same name before the first colon up to case, and exactly the same from it on. */
  predicate SameTag(a: string, b: string) {
    exists i :: 0 <= i <= |a| && i <= |b| && SameUpTo(a, b, i)
  }

  predicate SameUpTo(a: string, b: string, i: nat)
    requires i <= |a| && i <= |b|
  {
    && (forall k :: 0 <= k < i ==> a[k] != ':' && b[k] != ':' && SameLetter(a[k], b[k]))
    && (i < |a| ==> a[i] == ':') && a[i..] == b[i..]
  }

  lemma LowerSame(c: char, d: char)
    ensures LowerChar(c) == LowerChar(d) <==> SameLetter(c, d)
    ensures LowerChar(c) == ':' <==> c == ':'
  {
  }

  lemma {:induction false} FirstColon(s: string, i: nat)
    requires i <= |s| && (forall k :: 0 <= k < i ==> s[k] != ':') && (i < |s| ==> s[i] == ':')
    ensures IndexOf(s, ':') == i
  {
    if i > 0 { FirstColon(s[1..], i - 1); }
  }

  /** A key keeps the place of the first colon. */
  lemma KeyColon(s: string)
    ensures |CanonicalKey(s)| == |s|
    ensures var i := IndexOf(s, ':');
      && (forall k :: 0 <= k < i ==> CanonicalKey(s)[k] == LowerChar(s[k]) && CanonicalKey(s)[k] != ':')
      && CanonicalKey(s)[i..] == s[i..]
  {
    var i := IndexOf(s, ':');
    forall k | 0 <= k < i ensures LowerChar(s[k]) != ':' { LowerSame(s[k], s[k]); }
    hide LowerChar;
    if i < |s| { assert s[i..] == [s[i]] + s[i + 1..]; }
  }

  lemma SameKeySame(a: string, b: string)
    requires CanonicalKey(a) == CanonicalKey(b)
    ensures SameTag(a, b)
  {
    KeyColon(a);
    KeyColon(b);
    var key, i, j := CanonicalKey(a), IndexOf(a, ':'), IndexOf(b, ':');
    hide CanonicalKey;
    assert i < |a| ==> key[i] == key[i..][0] == ':';
    assert j < |b| ==> key[j] == key[j..][0] == ':';
    assert i == j;
    forall k | 0 <= k < i ensures SameLetter(a[k], b[k]) { LowerSame(a[k], b[k]); }
    assert SameUpTo(a, b, i);
  }

  /** The canonical key folds the case of the name and nothing else. */
  lemma CanonicalKeyMeans(a: string, b: string)
    ensures CanonicalKey(a) == CanonicalKey(b) <==> SameTag(a, b)
  {
    forall c, d ensures LowerChar(c) == LowerChar(d) <==> SameLetter(c, d) { LowerSame(c, d); }
    hide LowerChar, SameLetter;
    if CanonicalKey(a) == CanonicalKey(b) { SameKeySame(a, b); }
    if i :| 0 <= i <= |a| && i <= |b| && SameUpTo(a, b, i) {
      assert |a[i..]| == |b[i..]|;
      assert i < |b| ==> b[i] == b[i..][0] == a[i..][0];
      FirstColon(a, i);
      FirstColon(b, i);
      assert Lower(a[..i]) == Lower(b[..i]);
      assert a == a[..i] + a[i..] && b == b[..i] + b[i..];
      if i < |a| { assert a[i + 1..] == a[i..][1..] && b[i + 1..] == b[i..][1..]; }
    }
  }

  function KeySet(tags: seq<string>): set<string> {
    set t | t in tags :: CanonicalKey(t)
  }

  // ---------------------------------------------------------------------------
  // What reconciliation means

  ghost function TagsOf(sets: seq<seq<string>>): set<string> {
    set s, t | s in sets && t in s :: t
  }

  ghost function AllKeys(sets: seq<seq<string>>): set<string> {
    set t | t in TagsOf(sets) :: CanonicalKey(t)
  }

  /** The keys every set has. */
  ghost function InheritedKeys(sets: seq<seq<string>>): set<string> {
    set k | k in AllKeys(sets) && forall s :: s in sets ==> k in KeySet(s)
  }

  /** The keys some set has and another lacks. */
  ghost function DroppedKeys(sets: seq<seq<string>>): set<string> {
    AllKeys(sets) - InheritedKeys(sets)
  }

  /** t is the least spelling of key among tags. */
  ghost predicate IsLeast(tags: set<string>, key: string, t: string) {
    t in tags && CanonicalKey(t) == key
    && forall u :: u in tags && CanonicalKey(u) == key ==> StringLe(t, u)
  }

  /** q lists the least spellings of the given keys, in increasing key order. */
  ghost predicate Lists(tags: set<string>, keys: set<string>, q: seq<string>) {
    && (forall i :: 0 <= i < |q| ==> CanonicalKey(q[i]) in keys && IsLeast(tags, CanonicalKey(q[i]), q[i]))
    && (forall i, j :: 0 <= i < j < |q| ==>
      StringLe(CanonicalKey(q[i]), CanonicalKey(q[j])) && CanonicalKey(q[i]) != CanonicalKey(q[j]))
    && (forall k :: k in keys ==> exists i :: 0 <= i < |q| && CanonicalKey(q[i]) == k)
  }

  function KeysOf(q: seq<string>): seq<string> {
    seq(|q|, i requires 0 <= i < |q| => CanonicalKey(q[i]))
  }

  /** Lists determines its sequence: the result of Resolve is unique. */
  lemma ListsUnique(tags: set<string>, keys: set<string>, a: seq<string>, b: seq<string>)
    requires Lists(tags, keys, a) && Lists(tags, keys, b)
    ensures a == b
  {
    hide CanonicalKey, StringLe;
    forall k ensures k in KeysOf(a) <==> k in keys { KeysOfMembers(tags, keys, a, k); }
    forall k ensures k in KeysOf(b) <==> k in keys { KeysOfMembers(tags, keys, b, k); }
    StringsUnique(KeysOf(a), KeysOf(b));
    assert |a| == |KeysOf(a)| == |KeysOf(b)| == |b|;
    forall i | 0 <= i < |a| ensures a[i] == b[i] {
      assert KeysOf(a)[i] == KeysOf(b)[i];
      StringAntisymmetric(a[i], b[i]);
    }
  }

  lemma KeysOfMembers(tags: set<string>, keys: set<string>, q: seq<string>, k: string)
    requires Lists(tags, keys, q)
    ensures k in KeysOf(q) <==> k in keys
  {
    if k in keys {
      var i :| 0 <= i < |q| && CanonicalKey(q[i]) == k;
      assert KeysOf(q)[i] == k;
    }
  }

  /** What reconciling `sets` yields. */
  ghost predicate IsInherited(sets: seq<seq<string>>, q: seq<string>) {
    Lists(TagsOf(sets), InheritedKeys(sets), q)
  }

  ghost predicate IsDropped(sets: seq<seq<string>>, q: seq<string>) {
    Lists(TagsOf(sets), DroppedKeys(sets), q)
  }

  /** Which tags occur together, forgetting order and repetition. */
  ghost function Shape(sets: seq<seq<string>>): set<set<string>> {
    set s | s in sets :: SetOf(s)
  }

  /** Reconciliation sees only the shape of its input: order and repetition are irrelevant. */
  lemma ResolveOrderIndependent(sets: seq<seq<string>>, others: seq<seq<string>>, q: seq<string>)
    requires Shape(sets) == Shape(others)
    ensures IsInherited(sets, q) <==> IsInherited(others, q)
    ensures IsDropped(sets, q) <==> IsDropped(others, q)
    ensures DroppedKeys(sets) == DroppedKeys(others)
  {
    hide *;
    TagsOfShape(sets, others);
    TagsOfShape(others, sets);
    InheritedShape(sets, others);
    InheritedShape(others, sets);
    assert InheritedKeys(sets) == InheritedKeys(others) && TagsOf(sets) == TagsOf(others);
    SameKeyLists(sets, others, q);
  }

  lemma SameKeyLists(sets: seq<seq<string>>, others: seq<seq<string>>, q: seq<string>)
    requires InheritedKeys(sets) == InheritedKeys(others) && TagsOf(sets) == TagsOf(others)
    ensures IsInherited(sets, q) <==> IsInherited(others, q)
    ensures IsDropped(sets, q) <==> IsDropped(others, q)
    ensures DroppedKeys(sets) == DroppedKeys(others)
  {
    hide CanonicalKey, InheritedKeys, TagsOf, Lists;
  }

  lemma TagsOfShape(sets: seq<seq<string>>, others: seq<seq<string>>)
    requires Shape(sets) <= Shape(others)
    ensures TagsOf(sets) <= TagsOf(others)
  {
    forall s, t | s in sets && t in s ensures t in TagsOf(others) {
      assert SetOf(s) in Shape(others);
      var o :| o in others && SetOf(o) == SetOf(s);
      assert t in SetOf(o);
    }
  }

  lemma InheritedShape(sets: seq<seq<string>>, others: seq<seq<string>>)
    requires Shape(others) <= Shape(sets) && TagsOf(sets) == TagsOf(others)
    ensures InheritedKeys(sets) <= InheritedKeys(others)
  {
    hide CanonicalKey, TagsOf;
    forall k, o | k in InheritedKeys(sets) && o in others ensures k in KeySet(o) {
      assert SetOf(o) in Shape(sets);
      var s :| s in sets && SetOf(s) == SetOf(o);
      var t :| t in s && CanonicalKey(t) == k;
      assert t in SetOf(o);
    }
  }

  /** Two sets disagree exactly when some key is dropped. */
  lemma AmbiguousIffDropped(sets: seq<seq<string>>)
    ensures sets != [] && SomeDiffers(sets, KeySet(sets[0])) <==> DroppedKeys(sets) != {}
  {
    hide KeySet, DroppedKeys;
    if s :| sets != [] && s in sets && KeySet(s) != KeySet(sets[0]) {
      var k :| k in KeySet(s) + KeySet(sets[0]) && !(k in KeySet(s) && k in KeySet(sets[0]));
      if k in KeySet(s) { UnsharedIsDropped(sets, s, sets[0], k); } else { UnsharedIsDropped(sets, sets[0], s, k); }
    }
    if DroppedKeys(sets) != {} {
      var k :| k in DroppedKeys(sets);
      var s, o := DroppedIsUnshared(sets, k);
      assert KeySet(s) != KeySet(sets[0]) || KeySet(o) != KeySet(sets[0]);
    }
  }

  lemma UnsharedIsDropped(sets: seq<seq<string>>, s: seq<string>, o: seq<string>, k: string)
    requires s in sets && o in sets && k in KeySet(s) && k !in KeySet(o)
    ensures k in DroppedKeys(sets)
  {
    hide CanonicalKey;
    var t :| t in s && CanonicalKey(t) == k;
    assert t in TagsOf(sets);
  }

  lemma DroppedIsUnshared(sets: seq<seq<string>>, k: string) returns (s: seq<string>, o: seq<string>)
    requires k in DroppedKeys(sets)
    ensures s in sets && o in sets && k in KeySet(s) && k !in KeySet(o)
  {
    hide CanonicalKey;
    var t :| t in TagsOf(sets) && CanonicalKey(t) == k;
    s :| s in sets && t in s;
    o :| o in sets && k !in KeySet(o);
  }

  // ---------------------------------------------------------------------------
  // The loops

  datatype CanonicalSet = CanonicalSet(keys: seq<string>, representative: map<string, string>, duplicate: bool)

  ghost predicate StrictlyLists(keys: seq<string>, s: set<string>) {
    SortedBy(StringLe, keys) && Distinct(keys) && forall k :: k in keys <==> k in s
  }

  method SortedKeys(s: set<string>) returns (keys: seq<string>)
    ensures StrictlyLists(keys, s)
  {
    var rest := s;
    keys := [];
    while rest != {}
      invariant rest <= s
      invariant Distinct(keys) && forall k :: k in keys <==> k in s - rest
      decreases |rest|
    {
      var k :| k in rest;
      assert k !in keys;
      rest := rest - {k};
      keys := keys + [k];
    }
    StringsSort(keys);
    keys := Sort(StringLe, keys);
  }

  ghost predicate LeastByKey(tags: set<string>, m: map<string, string>) {
    && (forall k :: k in m <==> exists t :: t in tags && CanonicalKey(t) == k)
    && (forall k :: k in m ==> IsLeast(tags, k, m[k]))
  }

  ghost function SetOf(tags: seq<string>): set<string> { set t | t in tags }

  ghost predicate HasDuplicateKey(tags: seq<string>) {
    exists i, j :: 0 <= i < j < |tags| && CanonicalKey(tags[i]) == CanonicalKey(tags[j])
  }

  method Canonicalize(tags: seq<string>) returns (c: CanonicalSet)
    ensures StrictlyLists(c.keys, KeySet(tags))
    ensures c.representative.Keys == KeySet(tags)
    ensures LeastByKey(SetOf(tags), c.representative)
    ensures c.duplicate <==> HasDuplicateKey(tags)
  {
    hide CanonicalKey, StringLe, HasDuplicateKey;
    EmptyHasNoDuplicates();
    var values: map<string, string> := map[];
    var duplicate := false;
    for i := 0 to |tags|
      invariant LeastByKey(SetOf(tags[..i]), values)
      invariant duplicate <==> HasDuplicateKey(tags[..i])
    {
      var tag, key := tags[i], CanonicalKey(tags[i]);
      AddLeast(SetOf(tags[..i]), values, tag);
      assert SetOf(tags[..i + 1]) == SetOf(tags[..i]) + {tag};
      DuplicateStep(tags, i);
      if key in values {
        duplicate := true;
        if tag != values[key] && StringLe(tag, values[key]) {
          values := values[key := tag];
        }
      } else {
        values := values[key := tag];
      }
    }
    assert tags[..|tags|] == tags;
    assert forall k :: k in values <==> k in KeySet(tags);
    var keys := SortedKeys(values.Keys);
    c := CanonicalSet(keys, values, duplicate);
  }

  lemma EmptyHasNoDuplicates()
    ensures !HasDuplicateKey([])
  {
  }

  lemma DuplicateStep(tags: seq<string>, i: nat)
    requires i < |tags|
    ensures HasDuplicateKey(tags[..i + 1]) <==>
            HasDuplicateKey(tags[..i]) || exists t :: t in SetOf(tags[..i]) && CanonicalKey(t) == CanonicalKey(tags[i])
  {
    hide CanonicalKey;
    var a, b := tags[..i], tags[..i + 1];
    if t :| t in SetOf(a) && CanonicalKey(t) == CanonicalKey(tags[i]) {
      var j :| 0 <= j < i && a[j] == t;
      assert b[j] == t && b[i] == tags[i];
    }
    if HasDuplicateKey(a) {
      var j, k :| 0 <= j < k < |a| && CanonicalKey(a[j]) == CanonicalKey(a[k]);
      assert b[j] == a[j] && b[k] == a[k];
    }
    if HasDuplicateKey(b) {
      var j, k :| 0 <= j < k < |b| && CanonicalKey(b[j]) == CanonicalKey(b[k]);
      assert a[j] == b[j] && a[j] in SetOf(a);
      if k < i { assert a[k] == b[k]; }
    }
  }

  /** Keeping the smaller spelling keeps LeastByKey when one more tag is seen. */
  lemma AddLeast(tags: set<string>, m: map<string, string>, tag: string)
    requires LeastByKey(tags, m)
    ensures LeastByKey(tags + {tag}, 
              var key := CanonicalKey(tag);
              if key !in m || (tag != m[key] && StringLe(tag, m[key])) then m[key := tag] else m)
  {
    hide CanonicalKey, StringLe;
    var key := CanonicalKey(tag);
    var r := if key !in m || (tag != m[key] && StringLe(tag, m[key])) then m[key := tag] else m;
    assert tag in tags + {tag};
    forall k ensures k in r <==> exists t :: t in tags + {tag} && CanonicalKey(t) == k {
      if k in m {
        var t :| t in tags && CanonicalKey(t) == k;
        assert t in tags + {tag};
      }
    }
    forall k | k in r ensures IsLeast(tags + {tag}, k, r[k]) {
      forall u | u in tags + {tag} && CanonicalKey(u) == k ensures StringLe(r[k], u) {
        if u in tags {
          assert k in m && StringLe(m[k], u);
          if k == key && r[k] == tag { StringTransitive(tag, m[k], u); }
        } else {
          StringReflexive(tag);
          if key in m { StringTotal(tag, m[key]); }
        }
      }
    }
  }

  datatype Resolved = Resolved(inherited: seq<string>, dropped: seq<string>, ambiguous: bool, duplicate: bool)

  /** How many sets contain each key. */
  ghost function Occurrences(sets: seq<seq<string>>, k: string): nat {
    if |sets| == 0 then 0
    else Occurrences(sets[..|sets| - 1], k) + if k in KeySet(sets[|sets| - 1]) then 1 else 0
  }

  lemma {:induction false} OccurrencesFull(sets: seq<seq<string>>, k: string)
    ensures Occurrences(sets, k) <= |sets|
    ensures Occurrences(sets, k) == |sets| <==> forall s :: s in sets ==> k in KeySet(s)
  {
    if |sets| > 0 {
      OccurrencesFull(sets[..|sets| - 1], k);
      assert sets == sets[..|sets| - 1] + [sets[|sets| - 1]];
      assert sets[|sets| - 1] in sets;
    }
  }

  ghost predicate SomeDiffers(sets: seq<seq<string>>, keys: set<string>) {
    exists s :: s in sets && KeySet(s) != keys
  }

  ghost predicate SomeDuplicate(sets: seq<seq<string>>) {
    exists s :: s in sets && HasDuplicateKey(s)
  }

  lemma FlagsStep(sets: seq<seq<string>>, s: seq<string>, keys: set<string>)
    ensures SomeDiffers(sets + [s], keys) <==> SomeDiffers(sets, keys) || KeySet(s) != keys
    ensures SomeDuplicate(sets + [s]) <==> SomeDuplicate(sets) || HasDuplicateKey(s)
    ensures !SomeDiffers([], keys) && !SomeDuplicate([])
  {
    hide KeySet, HasDuplicateKey;
    var all := sets + [s];
    assert s in all && forall o :: o in sets ==> o in all;
  }

  ghost predicate CountsKeys(sets: seq<seq<string>>, n: map<string, nat>) {
    && (forall k :: k in n ==> n[k] == Occurrences(sets, k))
    && (forall k :: k !in n ==> Occurrences(sets, k) == 0)
  }

  lemma CountsStep(before: seq<seq<string>>, tags: seq<string>, n: map<string, nat>, m: map<string, nat>)
    requires CountsKeys(before, n) && Counted(n, KeySet(tags), m)
    ensures CountsKeys(before + [tags], m)
  {
    hide KeySet;
    assert (before + [tags])[..|before|] == before;
  }

  method SummarizeSets(sets: seq<seq<string>>)
    returns (representative: map<string, string>, occurrence: map<string, nat>, ambiguous: bool, duplicate: bool)
    ensures representative.Keys == occurrence.Keys == AllKeys(sets)
    ensures LeastByKey(TagsOf(sets), representative)
    ensures forall k :: k in occurrence ==> occurrence[k] == Occurrences(sets, k)
    ensures ambiguous <==> sets != [] && SomeDiffers(sets, KeySet(sets[0]))
    ensures duplicate <==> SomeDuplicate(sets)
  {
    hide CanonicalKey, StringLe, SomeDiffers, SomeDuplicate;
    representative, occurrence, ambiguous, duplicate := map[], map[], false, false;
    FlagsStep([], [], {});
    var first: seq<string> := [];
    for i := 0 to |sets|
      invariant representative.Keys == occurrence.Keys
      invariant LeastByKey(TagsOf(sets[..i]), representative)
      invariant CountsKeys(sets[..i], occurrence)
      invariant i > 0 ==> StrictlyLists(first, KeySet(sets[0]))
      invariant i > 0 ==> (ambiguous <==> SomeDiffers(sets[..i], KeySet(sets[0])))
      invariant i == 0 ==> !ambiguous
      invariant duplicate <==> SomeDuplicate(sets[..i])
    {
      hide LeastByKey, TagsOf, HasDuplicateKey, StrictlyLists, CountsKeys, Merged, KeySet;
      var c := Canonicalize(sets[i]);
      assert sets[..i + 1] == sets[..i] + [sets[i]];
      FlagsStep(sets[..i], sets[i], KeySet(sets[0]));
      if i == 0 {
        first := c.keys;
      } else {
        SameKeys(first, KeySet(sets[0]), c.keys, KeySet(sets[i]));
        if first != c.keys { ambiguous := true; }
      }
      if c.duplicate { duplicate := true; }
      var merged, counted := MergeKeys(c, representative, occurrence);
      MergedLeast(sets[..i], sets[i], c.representative, representative, merged);
      CountsStep(sets[..i], sets[i], occurrence, counted);
      representative, occurrence := merged, counted;
    }
    assert sets[..|sets|] == sets;
    assert forall k :: k in representative <==> k in AllKeys(sets);
  }

  lemma SameKeys(a: seq<string>, sa: set<string>, b: seq<string>, sb: set<string>)
    requires StrictlyLists(a, sa) && StrictlyLists(b, sb)
    ensures a == b <==> sa == sb
  {
    if sa == sb { StringsUnique(a, b); }
    if a == b { assert forall k :: k in sa <==> k in sb; }
  }

  /** The smaller of the two spellings known for a key. */
  function Smaller(mine: map<string, string>, theirs: map<string, string>, k: string): string
    requires k in mine
  {
    if k !in theirs || (mine[k] != theirs[k] && StringLe(mine[k], theirs[k])) then mine[k] else theirs[k]
  }

  /** theirs, with the spellings of the keys in `seen` merged in from mine. */
  ghost predicate Merged(mine: map<string, string>, theirs: map<string, string>, seen: set<string>,
                         m: map<string, string>)
    requires seen <= mine.Keys
  {
    && m.Keys == theirs.Keys + seen
    && (forall k :: k in seen ==> m[k] == Smaller(mine, theirs, k))
    && (forall k :: k in theirs && k !in seen ==> m[k] == theirs[k])
  }

  /** n, with one more occurrence of every key in `seen`. */
  ghost predicate Counted(n: map<string, nat>, seen: set<string>, m: map<string, nat>) {
    && m.Keys == n.Keys + seen
    && (forall k :: k in m ==> m[k] == (if k in n then n[k] else 0) + if k in seen then 1 else 0)
  }

  lemma MergedStep(mine: map<string, string>, theirs: map<string, string>, seen: set<string>,
                   m: map<string, string>, key: string)
    requires key in mine && key !in seen && seen <= mine.Keys && Merged(mine, theirs, seen, m)
    ensures Merged(mine, theirs, seen + {key},
              if key !in m || (mine[key] != m[key] && StringLe(mine[key], m[key])) then m[key := mine[key]] else m)
  {
    hide StringLe;
  }

  lemma CountedStep(n: map<string, nat>, seen: set<string>, m: map<string, nat>, key: string)
    requires key !in seen && Counted(n, seen, m)
    ensures Counted(n, seen + {key}, m[key := (if key in m then m[key] else 0) + 1])
  {
  }

  /** The innermost loop of summarizeSets: fold the keys of one more set into the running maps. */
  method MergeKeys(c: CanonicalSet, representative0: map<string, string>, occurrence0: map<string, nat>)
    returns (representative: map<string, string>, occurrence: map<string, nat>)
    requires StrictlyLists(c.keys, c.representative.Keys)
    ensures Merged(c.representative, representative0, c.representative.Keys, representative)
    ensures Counted(occurrence0, c.representative.Keys, occurrence)
  {
    representative, occurrence := representative0, occurrence0;
    ghost var seen: set<string> := {};
    for j := 0 to |c.keys|
      invariant seen <= c.representative.Keys
      invariant forall i :: 0 <= i < |c.keys| ==> (c.keys[i] in seen <==> i < j)
      invariant Merged(c.representative, representative0, seen, representative)
      invariant Counted(occurrence0, seen, occurrence)
    {
      hide Merged, Counted, StringLe;
      var key := c.keys[j];
      assert key in c.representative && key !in seen;
      var value := c.representative[key];
      CountedStep(occurrence0, seen, occurrence, key);
      MergedStep(c.representative, representative0, seen, representative, key);
      occurrence := occurrence[key := (if key in occurrence then occurrence[key] else 0) + 1];
      if key !in representative || (value != representative[key] && StringLe(value, representative[key])) {
        representative := representative[key := value];
      }
      seen := seen + {key};
    }
    assert seen == c.representative.Keys;
  }

  lemma MergedLeast(before: seq<seq<string>>, tags: seq<string>,
                    mine: map<string, string>, theirs: map<string, string>, merged: map<string, string>)
    requires LeastByKey(SetOf(tags), mine) && LeastByKey(TagsOf(before), theirs)
    requires Merged(mine, theirs, mine.Keys, merged)
    ensures LeastByKey(TagsOf(before + [tags]), merged)
  {
    hide CanonicalKey, StringLe;
    var old0, new0, all := TagsOf(before), SetOf(tags), TagsOf(before + [tags]);
    assert all == old0 + new0 by {
      assert tags in before + [tags];
      assert forall s :: s in before ==> s in before + [tags];
    }
    hide TagsOf, SetOf;
    forall k ensures k in merged <==> exists t :: t in all && CanonicalKey(t) == k {
      if k in mine {
        var t :| t in new0 && CanonicalKey(t) == k;
        assert t in all;
      }
      if k in theirs {
        var t :| t in old0 && CanonicalKey(t) == k;
        assert t in all;
      }
    }
    forall k | k in merged ensures IsLeast(all, k, merged[k]) {
      MergedIsLeast(old0, new0, mine, theirs, merged, k);
    }
  }

  lemma MergedIsLeast(old0: set<string>, new0: set<string>,
                      mine: map<string, string>, theirs: map<string, string>, merged: map<string, string>, k: string)
    requires LeastByKey(new0, mine) && LeastByKey(old0, theirs)
    requires Merged(mine, theirs, mine.Keys, merged) && k in merged
    ensures IsLeast(old0 + new0, k, merged[k])
  {
    hide CanonicalKey, StringLe;
    if k in mine && k in theirs { StringTotal(mine[k], theirs[k]); }
    forall u | u in old0 + new0 && CanonicalKey(u) == k ensures StringLe(merged[k], u) {
      if u in new0 {
        assert k in mine && StringLe(mine[k], u);
        if merged[k] != mine[k] { StringTransitive(merged[k], mine[k], u); }
      } else {
        assert k in theirs && StringLe(theirs[k], u);
        if merged[k] != theirs[k] { StringTransitive(merged[k], theirs[k], u); }
      }
    }
  }

  /** The loop of Resolve: keys counted once per set are inherited, the others dropped. */
  method SplitKeys(sets: seq<seq<string>>, occurrence: map<string, nat>)
    returns (inherited: set<string>, dropped: set<string>)
    requires occurrence.Keys == AllKeys(sets)
    requires forall k :: k in occurrence ==> occurrence[k] == Occurrences(sets, k)
    ensures inherited == InheritedKeys(sets) && dropped == DroppedKeys(sets)
  {
    hide *;
    InheritedAmongAll(sets);
    var todo := occurrence.Keys;
    inherited, dropped := {}, {};
    while todo != {}
      invariant todo <= occurrence.Keys
      invariant inherited == InheritedKeys(sets) - todo
      invariant dropped == DroppedKeys(sets) - todo
      decreases |todo|
    {
      var key :| key in todo;
      InheritedIffFull(sets, key);
      if occurrence[key] == |sets| {
        inherited := inherited + {key};
      } else {
        dropped := dropped + {key};
      }
      todo := todo - {key};
    }
  }

  lemma InheritedIffFull(sets: seq<seq<string>>, k: string)
    requires k in AllKeys(sets)
    ensures Occurrences(sets, k) == |sets| <==> k in InheritedKeys(sets)
    ensures k in InheritedKeys(sets) <==> k !in DroppedKeys(sets)
  {
    OccurrencesFull(sets, k);
  }

  method Resolve(sets: seq<seq<string>>) returns (r: Resolved)
    ensures IsInherited(sets, r.inherited)
    ensures IsDropped(sets, r.dropped)
    ensures r.ambiguous <==> r.dropped != []
    ensures r.duplicate <==> exists s :: s in sets && HasDuplicateKey(s)
  {
    hide CanonicalKey, StringLe, Lists, LeastByKey, KeySet, TagsOf, HasDuplicateKey, InheritedKeys, AllKeys;
    var representative, occurrence, ambiguous, duplicate := SummarizeSets(sets);
    var inherited, dropped := SplitKeys(sets, occurrence);
    assert inherited <= representative.Keys by { InheritedAmongAll(sets); }
    var inheritedTags := Pick(TagsOf(sets), representative, inherited);
    var droppedTags := Pick(TagsOf(sets), representative, dropped);
    AmbiguousIffDropped(sets);
    ListsEmpty(TagsOf(sets), dropped, droppedTags);
    r := Resolved(inheritedTags, droppedTags, ambiguous, duplicate);
  }

  lemma InheritedAmongAll(sets: seq<seq<string>>)
    ensures InheritedKeys(sets) <= AllKeys(sets) && DroppedKeys(sets) <= AllKeys(sets)
  {
  }

  lemma ListsEmpty(tags: set<string>, keys: set<string>, q: seq<string>)
    requires Lists(tags, keys, q)
    ensures q == [] <==> keys == {}
  {
    if q != [] { assert CanonicalKey(q[0]) in keys; }
  }

  method Pick(ghost tags: set<string>, representative: map<string, string>, keys: set<string>) returns (q: seq<string>)
    requires LeastByKey(tags, representative) && keys <= representative.Keys
    ensures Lists(tags, keys, q)
  {
    hide CanonicalKey, StringLe;
    var sorted := SortedKeys(keys);
    q := [];
    for i := 0 to |sorted|
      invariant |q| == i
      invariant forall j :: 0 <= j < i ==> IsLeast(tags, sorted[j], q[j])
    {
      assert sorted[i] in keys;
      q := q + [representative[sorted[i]]];
    }
    forall k | k in keys ensures exists i :: 0 <= i < |q| && CanonicalKey(q[i]) == k {
      var i :| 0 <= i < |sorted| && sorted[i] == k;
      assert CanonicalKey(q[i]) == k;
    }
  }

  /** Tag sets are equal when their canonical keys are. */
  method Equal(left: seq<string>, right: seq<string>) returns (same: bool)
    ensures same <==> KeySet(left) == KeySet(right)
  {
    var l := Canonicalize(left);
    var r := Canonicalize(right);
    SameKeys(l.keys, KeySet(left), r.keys, KeySet(right));
    same := l.keys == r.keys;
  }
}
