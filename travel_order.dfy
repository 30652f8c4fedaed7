/**
 * The order both travel combo boxes are sorted in before they are filled:
 * origin, then destiny, each compared ignoring case, then the 12-hour
 * `GregorianCalendar.HOUR`, then `MINUTE`.  `Collections.sort` is a stable
 * sort; the stable insertion sort below is its reference definition.
 */
module TravelOrder {
  import opened Text
  import ST = ServerTravel

  /** What the comparator reads of a travel. */
  datatype Key = Key(origin: string, destiny: string, hour: int, minute: int)

  /** `GregorianCalendar.HOUR`: the hour within the morning or the afternoon. */
  function Hour12(d: ST.Date): (h: int)
    ensures 0 <= h < 12
    ensures 0 <= d.hour < 12 ==> h == d.hour
    ensures 12 <= d.hour < 24 ==> h == d.hour - 12
  {
    d.hour % 12
  }

  /** The comparator's view of a travel with these fields. */
  function KeyOf(origin: string, destiny: string, date: ST.Date): Key {
    Key(origin, destiny, Hour12(date), date.minute)
  }

  /** `Integer.compareTo`: -1, 0 or 1. */
  function CompareInt(a: int, b: int): (r: int)
    ensures r == 0 <==> a == b
    ensures r < 0 <==> a < b
    ensures -1 <= r <= 1
  {
    if a < b then -1 else if a == b then 0 else 1
  }

  /** The comparator of `sortTravels`. */
  function Compare(a: Key, b: Key): int {
    var byOrigin := CompareIgnoreCase(a.origin, b.origin);
    if byOrigin != 0 then byOrigin
    else
      var byDestiny := CompareIgnoreCase(a.destiny, b.destiny);
      if byDestiny != 0 then byDestiny
      else if CompareInt(a.hour, b.hour) != 0 then CompareInt(a.hour, b.hour)
      else CompareInt(a.minute, b.minute)
  }

  /** Two travels the comparator cannot tell apart. */
  predicate SameRank(a: Key, b: Key) {
    Lower(a.origin) == Lower(b.origin) && Lower(a.destiny) == Lower(b.destiny) &&
    a.hour == b.hour && a.minute == b.minute
  }

  /** The comparator answers 0 exactly when origin, destiny, hour and minute all agree (up to case). */
  lemma CompareZero(a: Key, b: Key)
    ensures Compare(a, b) == 0 <==> SameRank(a, b)
  {
    CompareIgnoreCaseZero(a.origin, b.origin);
    CompareIgnoreCaseZero(a.destiny, b.destiny);
  }

  /** Swapping the travels flips the sign of the comparison. */
  lemma CompareAntisymmetric(a: Key, b: Key)
    ensures Compare(a, b) == -Compare(b, a)
  {
    CompareIgnoreCaseAntisymmetric(a.origin, b.origin);
    CompareIgnoreCaseAntisymmetric(a.destiny, b.destiny);
  }

  /** Every travel comes no later than the next one. */
  predicate SortedBy<T>(s: seq<T>, key: T -> Key) {
    forall i :: 0 < i < |s| ==> Compare(key(s[i - 1]), key(s[i])) <= 0
  }

  /** `x` placed before the first element it does not follow. */
  function Insert<T>(x: T, s: seq<T>, key: T -> Key): (r: seq<T>)
    ensures |r| == |s| + 1
    decreases |s|
  {
    if |s| == 0 || Compare(key(x), key(s[0])) <= 0 then [x] + s
    else [s[0]] + Insert(x, s[1..], key)
  }

  /** The stable sort: each travel is inserted in front of the travels after it that it does not follow. */
  function Sort<T>(s: seq<T>, key: T -> Key): (r: seq<T>)
    ensures |r| == |s|
    decreases |s|
  {
    if |s| == 0 then [] else Insert(s[0], Sort(s[1..], key), key)
  }

  /** Inserting into a sorted list keeps it sorted, with the inserted element or the old head in front. */
  lemma {:induction false} InsertSorted<T>(x: T, s: seq<T>, key: T -> Key)
    requires SortedBy(s, key)
    ensures SortedBy(Insert(x, s, key), key)
    ensures Insert(x, s, key)[0] == x || Insert(x, s, key)[0] == s[0]
    decreases |s|
  {
    if |s| > 0 && Compare(key(x), key(s[0])) > 0 {
      var rest := Insert(x, s[1..], key);
      InsertSorted(x, s[1..], key);
      CompareAntisymmetric(key(x), key(s[0]));
      var r := [s[0]] + rest;
      forall i | 0 < i < |r|
        ensures Compare(key(r[i - 1]), key(r[i])) <= 0
      {
        if i > 1 {
          assert r[i - 1] == rest[i - 2] && r[i] == rest[i - 1];
        }
      }
    }
  }

  /** Inserting adds exactly the one element. */
  lemma {:induction false} InsertAdds<T>(x: T, s: seq<T>, key: T -> Key)
    ensures multiset(Insert(x, s, key)) == multiset(s) + multiset{x}
    decreases |s|
  {
    if |s| > 0 && Compare(key(x), key(s[0])) > 0 {
      InsertAdds(x, s[1..], key);
      assert s == [s[0]] + s[1..];
    }
  }

  /** The sort orders the travels. */
  lemma {:induction false} SortSorted<T>(s: seq<T>, key: T -> Key)
    ensures SortedBy(Sort(s, key), key)
    decreases |s|
  {
    if |s| > 0 {
      SortSorted(s[1..], key);
      InsertSorted(s[0], Sort(s[1..], key), key);
    }
  }

  /** The sort keeps every travel, as often as it occurs. */
  lemma {:induction false} SortPermutes<T>(s: seq<T>, key: T -> Key)
    ensures multiset(Sort(s, key)) == multiset(s)
    decreases |s|
  {
    if |s| > 0 {
      SortPermutes(s[1..], key);
      InsertAdds(s[0], Sort(s[1..], key), key);
      assert s == [s[0]] + s[1..];
    }
  }

  /** A list already in order is left as it is: the sort moves no travel past one it does not follow. */
  lemma {:induction false} SortOfSorted<T>(s: seq<T>, key: T -> Key)
    requires SortedBy(s, key)
    ensures Sort(s, key) == s
    decreases |s|
  {
    if |s| > 0 {
      assert SortedBy(s[1..], key) by {
        forall i | 0 < i < |s[1..]|
          ensures Compare(key(s[1..][i - 1]), key(s[1..][i])) <= 0
        {
          assert s[1..][i - 1] == s[i] && s[1..][i] == s[i + 1];
        }
      }
      SortOfSorted(s[1..], key);
      assert s == [s[0]] + s[1..];
    }
  }
}
