/** The active errors of a monitor, joined into one message for the server. */
module ErrorAggregator {
  import opened Common
  import opened Sequences
  import opened Strings

  datatype Stamp = Stamp(time: int, message: string)
  datatype Entry<K> = Entry(key: K, stamp: Stamp)

  // ----- the dictionary of active errors, in insertion order -----

  predicate HasKey<K(==)>(d: seq<Entry<K>>, k: K) {
    exists i | 0 <= i < |d| :: d[i].key == k
  }

  function Put<K(==)>(d: seq<Entry<K>>, k: K, stamp: Stamp): seq<Entry<K>> {
    if d == [] then [Entry(k, stamp)]
    else if d[0].key == k then [Entry(k, stamp)] + d[1..]
    else [d[0]] + Put(d[1..], k, stamp)
  }

  /** What remains when the keys in `gone` are deleted or collected. */
  function Without<K(==)>(d: seq<Entry<K>>, gone: set<K>): (r: seq<Entry<K>>)
    ensures |r| <= |d|
  {
    if d == [] then [] else (if d[0].key in gone then [] else [d[0]]) + Without(d[1..], gone)
  }

  lemma {:induction false} OnlyShrinks<K>(d: seq<Entry<K>>, gone: set<K>)
    ensures multiset(Without(d, gone)) <= multiset(d)
  {
    if d != [] {
      OnlyShrinks(d[1..], gone);
      assert d == [d[0]] + d[1..];
    }
  }

  /** The dictionary after the outcome of one reporter is entered. */
  function Updated<K(==)>(d: seq<Entry<K>>, key: K, message: Option<string>, now: int): seq<Entry<K>> {
    if message.Some? then Put(d, key, Stamp(now, message.value))
    else if HasKey(d, key) then Without(d, {key})
    else d
  }

  function KeyOf<K>(e: Entry<K>): K {
    e.key
  }

  lemma {:induction false} PutEntries<K>(d: seq<Entry<K>>, k: K, stamp: Stamp)
    requires DistinctBy(KeyOf, d)
    ensures DistinctBy(KeyOf, Put(d, k, stamp))
    ensures forall e :: e in Put(d, k, stamp) <==> e == Entry(k, stamp) || (e in d && e.key != k)
  {
    if d != [] {
      var t := Put(d[1..], k, stamp);
      PutEntries(d[1..], k, stamp);
      assert forall e :: e in d <==> e == d[0] || e in d[1..];
      if d[0].key != k {
        forall j | 0 <= j < |t| ensures t[j].key != d[0].key {
          assert t[j] in t;
        }
      }
    }
  }

  lemma {:induction false} WithoutMember<K>(d: seq<Entry<K>>, gone: set<K>, e: Entry<K>)
    ensures e in Without(d, gone) <==> e in d && e.key !in gone
  {
    if d != [] {
      WithoutMember(d[1..], gone, e);
      assert e in d <==> e == d[0] || e in d[1..];
    }
  }

  lemma {:induction false} WithoutDistinct<K>(d: seq<Entry<K>>, gone: set<K>)
    requires DistinctBy(KeyOf, d)
    ensures DistinctBy(KeyOf, Without(d, gone))
  {
    if d != [] {
      var t := Without(d[1..], gone);
      WithoutDistinct(d[1..], gone);
      forall j | 0 <= j < |t| ensures t[j].key != d[0].key {
        WithoutMember(d[1..], gone, t[j]);
      }
    }
  }

  /** A failure is the reporter's one entry, a success leaves it none, and nobody else's entry is touched. */
  lemma UpdatedEntries<K>(d: seq<Entry<K>>, key: K, message: Option<string>, now: int)
    requires DistinctBy(KeyOf, d)
    ensures DistinctBy(KeyOf, Updated(d, key, message, now))
    ensures forall e :: e in Updated(d, key, message, now) <==>
              (e.key != key && e in d) || (message.Some? && e == Entry(key, Stamp(now, message.value)))
  {
    if message.Some? {
      PutEntries(d, key, Stamp(now, message.value));
    } else {
      forall e ensures e in Without(d, {key}) <==> e in d && e.key != key {
        WithoutMember(d, {key}, e);
      }
      WithoutDistinct(d, {key});
    }
  }

  // ----- the message -----

  const SEPARATOR := "\n\n---------\n\n"

  /** Descending: later first, and among equal times the greater text first. */
  predicate NewestFirst(a: Stamp, b: Stamp) {
    a.time > b.time || (a.time == b.time && LexLe(b.message, a.message))
  }

  function Stamps<K>(d: seq<Entry<K>>): (r: seq<Stamp>)
    ensures |r| == |d|
  {
    if d == [] then [] else [d[0].stamp] + Stamps(d[1..])
  }

  function Messages(s: seq<Stamp>): seq<string> {
    if s == [] then [] else [s[0].message] + Messages(s[1..])
  }

  /** All active messages, newest first, or nothing if that is blank. */
  function Message<K>(d: seq<Entry<K>>): Option<string> {
    var text := Join(Messages(Sort(NewestFirst, Stamps(d))), SEPARATOR);
    if text == "" then None else Some(text)
  }

  lemma NewestFirstOrder()
    ensures TotalPreorder(NewestFirst)
    ensures forall a, b :: NewestFirst(a, b) && NewestFirst(b, a) ==> a == b
  {
    forall a, b ensures NewestFirst(a, b) || NewestFirst(b, a) {
      LexTotal(a.message, b.message);
    }
    forall a, b | NewestFirst(a, b) && NewestFirst(b, a) ensures a == b {
      LexTotal(a.message, b.message);
    }
    forall a, b, c | NewestFirst(a, b) && NewestFirst(b, c) ensures NewestFirst(a, c) {
      if a.time == b.time == c.time {
        LexTransitive(c.message, b.message, a.message);
      }
    }
  }

  /** What is shown: nothing reads as blank. */
  function Text(message: Option<string>): string {
    if message.Some? then message.value else ""
  }

  /** Everything in `d` comes before everything in `e`: it is newer, or as new with a text that is not smaller. */
  ghost predicate Before<K>(d: seq<Entry<K>>, e: seq<Entry<K>>) {
    forall a, b | a in d && b in e ::
      a.stamp.time > b.stamp.time || (a.stamp.time == b.stamp.time && LexLe(b.stamp.message, a.stamp.message))
  }

  /** What is told of the errors `d`, said without sorting them: nothing if there is none, or one with a blank message; the
      message of a single one; and when they fall into two parts of which one is before the other, what is told of the one,
      the separator, and what is told of the other. */
  ghost predicate Tells<K(!new)>(message: Option<string>, d: seq<Entry<K>>) {
    && (message.None? <==> d == [] || (|d| == 1 && d[0].stamp.message == ""))
    && (|d| == 1 ==> Text(message) == d[0].stamp.message)
    && forall a, b | a != [] && b != [] && Before(a, b) && multiset(d) == multiset(a + b) ::
         Text(message) == Text(Message(a)) + "\n\n---------\n\n" + Text(Message(b))
  }

  lemma {:induction false} InsertBehind(x: Stamp, s: seq<Stamp>, t: seq<Stamp>)
    requires forall y | y in t :: NewestFirst(x, y)
    ensures Insert(NewestFirst, x, s + t) == Insert(NewestFirst, x, s) + t
  {
    if s == [] {
      assert s + t == t;
      if t != [] {
        assert NewestFirst(x, t[0]);
      }
    } else {
      AppendTail(s, t);
      if !NewestFirst(x, s[0]) {
        InsertBehind(x, s[1..], t);
      }
    }
  }

  lemma {:induction false} SortTwoParts(s: seq<Stamp>, t: seq<Stamp>)
    requires forall x, y | x in s && y in t :: NewestFirst(x, y)
    ensures Sort(NewestFirst, s + t) == Sort(NewestFirst, s) + Sort(NewestFirst, t)
  {
    if s == [] {
      assert s + t == t;
    } else {
      AppendTail(s, t);
      SortTwoParts(s[1..], t);
      InsertBehind(s[0], Sort(NewestFirst, s[1..]), Sort(NewestFirst, t));
    }
  }

  lemma {:induction false} MessagesAppend(s: seq<Stamp>, t: seq<Stamp>)
    ensures Messages(s + t) == Messages(s) + Messages(t)
    ensures |Messages(s)| == |s|
  {
    if s == [] {
      assert s + t == t;
    } else {
      AppendTail(s, t);
      MessagesAppend(s[1..], t);
    }
  }

  lemma {:induction false} JoinTwoParts(a: seq<string>, b: seq<string>, separator: string)
    requires a != [] && b != []
    ensures Join(a + b, separator) == Join(a, separator) + separator + Join(b, separator)
  {
    AppendTail(a, b);
    if |a| > 1 {
      JoinTwoParts(a[1..], b, separator);
      assert a[0] + separator + (Join(a[1..], separator) + separator + Join(b, separator))
             == (a[0] + separator + Join(a[1..], separator)) + separator + Join(b, separator);
    } else {
      assert (a + b)[1..] == b;
    }
  }

  lemma {:induction false} StampsIn<K>(d: seq<Entry<K>>)
    ensures forall x :: x in Stamps(d) <==> exists e :: e in d && e.stamp == x
  {
    if d != [] {
      StampsIn(d[1..]);
      assert d == [d[0]] + d[1..];
      forall x ensures x in Stamps(d) <==> exists e :: e in d && e.stamp == x {
        if x == d[0].stamp {
          assert d[0] in d;
        } else if e :| e in d && e.stamp == x {
          assert e in d[1..];
        }
      }
    }
  }

  /** Two parts of which one is before the other are told one after the other. */
  lemma TwoParts<K>(d: seq<Entry<K>>, e: seq<Entry<K>>)
    requires d != [] && e != [] && Before(d, e)
    ensures Text(Message(d + e)) == Text(Message(d)) + SEPARATOR + Text(Message(e))
  {
    StampsBefore(d, e);
    StampsAppend(d, e);
    SortTwoParts(Stamps(d), Stamps(e));
    JoinSorted(Sort(NewestFirst, Stamps(d)), Sort(NewestFirst, Stamps(e)));
  }

  lemma JoinSorted(s: seq<Stamp>, t: seq<Stamp>)
    requires s != [] && t != []
    ensures Join(Messages(s + t), SEPARATOR) == Join(Messages(s), SEPARATOR) + SEPARATOR + Join(Messages(t), SEPARATOR)
  {
    MessagesAppend(s, t);
    MessagesAppend(t, []);
    JoinTwoParts(Messages(s), Messages(t), SEPARATOR);
  }

  lemma StampsBefore<K>(d: seq<Entry<K>>, e: seq<Entry<K>>)
    requires Before(d, e)
    ensures forall x, y | x in Stamps(d) && y in Stamps(e) :: NewestFirst(x, y)
  {
    StampsIn(d);
    StampsIn(e);
  }

  lemma OneMessage<K>(d: seq<Entry<K>>)
    requires |d| == 1
    ensures Text(Message(d)) == d[0].stamp.message
  {
    var x := d[0].stamp;
    assert d[1..] == [];
    assert Stamps(d) == [x] && [x][1..] == [];
    assert Sort(NewestFirst, [x]) == Insert(NewestFirst, x, []) == [x];
    assert Messages([x]) == [x.message] + Messages([]);
  }

  lemma {:induction false} JoinLong(parts: seq<string>, separator: string)
    requires |parts| > 1
    ensures |Join(parts, separator)| >= |separator|
  {
  }

  lemma NothingToTell<K>(d: seq<Entry<K>>)
    ensures Message(d).None? <==> d == [] || (|d| == 1 && d[0].stamp.message == "")
  {
    var s := Sort(NewestFirst, Stamps(d));
    MessagesAppend(s, []);
    if |d| == 1 {
      OneMessage(d);
    } else if |d| > 1 {
      JoinLong(Messages(s), SEPARATOR);
    }
  }

  /** The message of the errors, in these words. */
  lemma MessageTells<K(!new)>(d: seq<Entry<K>>)
    ensures Tells(Message(d), d)
  {
    NothingToTell(d);
    if |d| == 1 {
      OneMessage(d);
    }
    forall a, b | a != [] && b != [] && Before(a, b) && multiset(d) == multiset(a + b)
      ensures Text(Message(d)) == Text(Message(a)) + SEPARATOR + Text(Message(b))
    {
      MessageIgnoresOrder(d, a + b);
      TwoParts(a, b);
    }
  }

  predicate EarlierFirst<K>(a: Entry<K>, b: Entry<K>) {
    NewestFirst(a.stamp, b.stamp)
  }

  lemma EarlierFirstOrder<K(!new)>()
    ensures TotalPreorder<Entry<K>>(EarlierFirst)
  {
    NewestFirstOrder();
  }

  lemma FirstAndRest<K>(order: seq<Entry<K>>, i: nat)
    requires i < |order| && forall j | i < j < |order| :: EarlierFirst(order[i], order[j])
    ensures Text(Message(order[i..])) == order[i].stamp.message
              + if i + 1 < |order| then SEPARATOR + Text(Message(order[i + 1..])) else ""
  {
    OneMessage([order[i]]);
    assert order[i..] == [order[i]] + order[i + 1..];
    if i + 1 < |order| {
      TwoParts([order[i]], order[i + 1..]);
    } else {
      assert order[i..] == [order[i]];
    }
  }

  lemma AllBehind<K>(order: seq<Entry<K>>, i: nat)
    requires i < |order| && SortedBy<Entry<K>>(EarlierFirst, order)
    ensures forall j | i < j < |order| :: EarlierFirst(order[i], order[j])
  {
  }

  lemma InOrder<K>(order: seq<Entry<K>>)
    requires SortedBy<Entry<K>>(EarlierFirst, order)
    ensures forall i, j | 0 <= i < j < |order| ::
              && order[i].stamp.time >= order[j].stamp.time
              && (order[i].stamp.time == order[j].stamp.time ==> LexLe(order[j].stamp.message, order[i].stamp.message))
  {
    forall i, j | 0 <= i < j < |order|
      ensures order[i].stamp.time >= order[j].stamp.time
      ensures order[i].stamp.time == order[j].stamp.time ==> LexLe(order[j].stamp.message, order[i].stamp.message)
    {
      assert EarlierFirst(order[i], order[j]);
    }
  }

  lemma ToldInOrder<K>(order: seq<Entry<K>>)
    requires SortedBy<Entry<K>>(EarlierFirst, order)
    ensures forall i | 0 <= i < |order| ::
              Text(Message(order[i..])) == order[i].stamp.message
                + if i + 1 < |order| then SEPARATOR + Text(Message(order[i + 1..])) else ""
  {
    forall i | 0 <= i < |order|
      ensures Text(Message(order[i..])) == order[i].stamp.message
                + if i + 1 < |order| then SEPARATOR + Text(Message(order[i + 1..])) else ""
    {
      AllBehind(order, i);
      FirstAndRest(order, i);
    }
  }

  /** The message joins all active errors, each once, from the newest to the oldest, among equally new ones the greater text
      first. In this order, what is told from any error on is its own message and, after the separator, what is told of those
      behind it. */
  lemma JoinedNewestFirst<K(!new)>(d: seq<Entry<K>>) returns (order: seq<Entry<K>>)
    ensures multiset(order) == multiset(d) && |order| == |d|
    ensures forall i, j | 0 <= i < j < |order| ::
              && order[i].stamp.time >= order[j].stamp.time
              && (order[i].stamp.time == order[j].stamp.time ==> LexLe(order[j].stamp.message, order[i].stamp.message))
    ensures forall i | 0 <= i < |order| ::
              Text(Message(order[i..])) == order[i].stamp.message
                + if i + 1 < |order| then SEPARATOR + Text(Message(order[i + 1..])) else ""
    ensures Message(order) == Message(d)
  {
    EarlierFirstOrder<K>();
    order := Sort(EarlierFirst, d);
    SortSorted(EarlierFirst, d);
    MessageIgnoresOrder(order, d);
    InOrder(order);
    ToldInOrder(order);
    assert |order| == |multiset(order)| == |multiset(d)| == |d|;
  }

  lemma TakenOut<T>(s: seq<T>, i: nat)
    requires i < |s|
    ensures multiset(s[..i] + s[i + 1..]) == multiset(s) - multiset{s[i]}
  {
    assert s == s[..i] + [s[i]] + s[i + 1..];
  }

  lemma {:induction false} StampsOf<K>(d: seq<Entry<K>>, e: seq<Entry<K>>)
    requires multiset(d) == multiset(e)
    ensures multiset(Stamps(d)) == multiset(Stamps(e))
  {
    assert |d| == |multiset(d)| == |multiset(e)| == |e|;
    if d != [] {
      assert d[0] in multiset(e);
      var i :| 0 <= i < |e| && e[i] == d[0];
      var rest := e[..i] + e[i + 1..];
      TakenOut(e, i);
      DropFirst(d);
      StampsOf(d[1..], rest);
      StampsWithout(e, i);
      assert Stamps(d) == [d[0].stamp] + Stamps(d[1..]);
    }
  }

  lemma {:induction false} StampsAppend<K>(a: seq<Entry<K>>, b: seq<Entry<K>>)
    ensures Stamps(a + b) == Stamps(a) + Stamps(b)
  {
    if a == [] {
      assert a + b == b;
    } else {
      AppendTail(a, b);
      StampsAppend(a[1..], b);
    }
  }

  lemma InTheMiddle<T>(a: seq<T>, x: T, b: seq<T>)
    ensures multiset(a + ([x] + b)) == multiset(a + b) + multiset{x}
  {
  }

  lemma CutOut<T>(s: seq<T>, i: nat)
    requires i < |s|
    ensures s == s[..i] + ([s[i]] + s[i + 1..])
  {
  }

  lemma StampsWithout<K>(e: seq<Entry<K>>, i: nat)
    requires i < |e|
    ensures multiset(Stamps(e)) == multiset(Stamps(e[..i] + e[i + 1..])) + multiset{e[i].stamp}
  {
    var a, b := e[..i], e[i + 1..];
    CutOut(e, i);
    StampsAppend(a, [e[i]] + b);
    StampsAppend(a, b);
    InTheMiddle(Stamps(a), e[i].stamp, Stamps(b));
  }

  /** The message depends on which errors are active, not on the order they came in. */
  lemma MessageIgnoresOrder<K>(d: seq<Entry<K>>, e: seq<Entry<K>>)
    requires multiset(d) == multiset(e)
    ensures Message(d) == Message(e)
  {
    NewestFirstOrder();
    StampsOf(d, e);
    SortSorted(NewestFirst, Stamps(d));
    SortSorted(NewestFirst, Stamps(e));
    SortedUnique(NewestFirst, Sort(NewestFirst, Stamps(d)), Sort(NewestFirst, Stamps(e)));
  }

  /** Counting is enough: errors that only disappeared since they were joined, and are still as many as were counted,
      are the same errors. */
  lemma CountingSuffices<K>(active: seq<Entry<K>>, joined: seq<Entry<K>>, counted: nat)
    requires multiset(active) <= multiset(joined) && |joined| <= counted
    requires |active| == counted
    ensures multiset(active) == multiset(joined) && Message(active) == Message(joined)
  {
    assert |multiset(joined) - multiset(active)| == |joined| - |active| == 0;
    MessageIgnoresOrder(active, joined);
  }

  /** The keys the garbage collector takes at the points of a report where it may run. */
  datatype Collected<K> = Collected(atCheck: set<K>, atCount: set<K>, atJoin: set<K>)

  class ErrorAggregator<K(==,!new)> {
    var activeErrors: seq<Entry<K>>
    var lastReportedErrors: nat
    /** The message the server was last told to show, and the errors it was joined from. */
    ghost var published: Option<string>
    ghost var joined: seq<Entry<K>>

    ghost predicate Valid()
      reads this
    {
      && DistinctBy(KeyOf, activeErrors)
      && multiset(activeErrors) <= multiset(joined)
      && |joined| <= lastReportedErrors
      && published == Message(joined)
    }

    constructor ()
      ensures Valid() && activeErrors == [] && published == None && lastReportedErrors == 0
    {
      activeErrors, lastReportedErrors := [], 0;
      published, joined := None, [];
    }

    /** Weak keys that nothing else refers to disappear, at any time. */
    method Evict(gone: set<K>)
      requires Valid()
      modifies this`activeErrors
      ensures Valid() && activeErrors == Without(old(activeErrors), gone)
    {
      OnlyShrinks(activeErrors, gone);
      WithoutDistinct(activeErrors, gone);
      activeErrors := Without(activeErrors, gone);
    }

    /** Joins what is left of the errors that were counted. */
    method Publish(counted: nat, left: seq<Entry<K>>) returns (result: Option<string>)
      requires DistinctBy(KeyOf, left) && |left| <= counted
      modifies this
      ensures Valid() && result == published == Message(left)
      ensures activeErrors == left && lastReportedErrors == counted
    {
      result := Message(left);
      lastReportedErrors, activeErrors, published, joined := counted, left, result, left;
    }

    method UpdateAndPublish(key: K, message: Option<string>, now: int, gc: Collected<K>) returns (result: Option<string>, shouldUpdate: bool)
      requires Valid()
      modifies this
      ensures Valid() && published == Message(activeErrors)
      ensures result == if shouldUpdate then published else None
      ensures shouldUpdate <==> message.Some? || HasKey(old(activeErrors), key)
                                || |Without(old(activeErrors), gc.atCheck)| != old(lastReportedErrors)
      ensures !shouldUpdate ==> published == old(published)
      ensures var checked := Without(Updated(old(activeErrors), key, message, now), gc.atCheck);
              activeErrors == if shouldUpdate then Without(Without(checked, gc.atCount), gc.atJoin) else checked
      ensures var checked := Without(Updated(old(activeErrors), key, message, now), gc.atCheck);
              lastReportedErrors == if shouldUpdate then |Without(checked, gc.atCount)| else old(lastReportedErrors)
    {
      shouldUpdate := message.Some? || HasKey(activeErrors, key);
      UpdatedEntries(activeErrors, key, message, now);
      WithoutDistinct(Updated(activeErrors, key, message, now), gc.atCheck);
      activeErrors := Without(Updated(activeErrors, key, message, now), gc.atCheck);
      shouldUpdate := shouldUpdate || lastReportedErrors != |activeErrors|;
      if shouldUpdate {
        var counted := Without(activeErrors, gc.atCount);
        WithoutDistinct(activeErrors, gc.atCount);
        WithoutDistinct(counted, gc.atJoin);
        result := Publish(|counted|, Without(counted, gc.atJoin));
      } else {
        OnlyShrinks(old(activeErrors), gc.atCheck);
        CountingSuffices(activeErrors, joined, lastReportedErrors);
        result := None;
      }
    }

    /** Reports success or failure of one reporter. Whatever was collected before or meanwhile, afterwards the server has
        been told exactly the errors active now; it is told nothing only when it already knew them. */
    method Report(key: K, message: Option<string>, now: int, gc: Collected<K>) returns (result: Option<string>, shouldUpdate: bool)
      requires Valid()
      modifies this
      ensures Valid() && published == Message(activeErrors)
      ensures Tells(published, activeErrors)
      ensures result == if shouldUpdate then published else None
      ensures shouldUpdate <==> message.Some? || HasKey(old(activeErrors), key)
                                || |Without(old(activeErrors), gc.atCheck)| != old(lastReportedErrors)
      ensures !shouldUpdate ==> published == old(published)
      ensures var checked := Without(Updated(old(activeErrors), key, message, now), gc.atCheck);
              activeErrors == if shouldUpdate then Without(Without(checked, gc.atCount), gc.atJoin) else checked
      ensures var checked := Without(Updated(old(activeErrors), key, message, now), gc.atCheck);
              lastReportedErrors == if shouldUpdate then |Without(checked, gc.atCount)| else old(lastReportedErrors)
    {
      result, shouldUpdate := UpdateAndPublish(key, message, now, gc);
      MessageTells(activeErrors);
    }
  }
}
