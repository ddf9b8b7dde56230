/** Lists: `Array.filter`, `Array.join`, and lists that hold no element twice. */
module Lists {
  function Filter<T>(items: seq<T>, keep: T -> bool): seq<T> {
    if items == [] then []
    else if keep(items[0]) then [items[0]] + Filter(items[1..], keep)
    else Filter(items[1..], keep)
  }

  lemma {:induction false} FilterConcat<T>(a: seq<T>, b: seq<T>, keep: T -> bool)
    ensures Filter(a + b, keep) == Filter(a, keep) + Filter(b, keep)
  {
    if a == [] {
      assert a + b == b;
    } else {
      assert (a + b)[0] == a[0] && (a + b)[1..] == a[1..] + b;
      FilterConcat(a[1..], b, keep);
    }
  }

  lemma {:induction false} FilterMember<T>(items: seq<T>, keep: T -> bool)
    ensures forall item :: item in Filter(items, keep) <==> item in items && keep(item)
  {
    if items != [] { FilterMember(items[1..], keep); }
  }

  lemma {:induction false} FilterAll<T>(items: seq<T>, keep: T -> bool)
    requires forall i :: 0 <= i < |items| ==> keep(items[i])
    ensures Filter(items, keep) == items
  {
    if items != [] { FilterAll(items[1..], keep); }
  }

  lemma {:induction false} FilterNone<T>(items: seq<T>, keep: T -> bool)
    requires forall i :: 0 <= i < |items| ==> !keep(items[i])
    ensures Filter(items, keep) == []
  {
    if items != [] { FilterNone(items[1..], keep); }
  }

  function Join(parts: seq<string>, separator: string): string {
    if parts == [] then ""
    else if |parts| == 1 then parts[0]
    else parts[0] + separator + Join(parts[1..], separator)
  }

  /** The parts of a text between occurrences of a character. */
  function Split(text: string, at: char): (parts: seq<string>)
    ensures parts != []
  {
    if text == "" then [""]
    else
      var rest := Split(text[1..], at);
      if text[0] == at then [""] + rest else [[text[0]] + rest[0]] + rest[1..]
  }

  lemma FirstPart(parts: seq<string>, others: seq<string>)
    requires parts != []
    ensures (parts + others)[0] == parts[0] && (parts + others)[1..] == parts[1..] + others
  {
  }

  lemma {:induction false} SplitJoined(a: string, b: string, at: char)
    ensures Split(a + [at] + b, at) == Split(a, at) + Split(b, at)
  {
    var whole := a + [at] + b;
    if a == "" {
      assert whole[1..] == b;
    } else {
      assert whole[0] == a[0] && whole[1..] == a[1..] + [at] + b;
      SplitJoined(a[1..], b, at);
      FirstPart(Split(a[1..], at), Split(b, at));
    }
  }

  lemma {:induction false} SplitWhole(a: string, at: char)
    requires at !in a
    ensures Split(a, at) == [a]
  {
    if a != "" {
      SplitWhole(a[1..], at);
      assert a == [a[0]] + a[1..];
    }
  }

  /** Joining is undone by splitting, when no part holds the separator. */
  lemma {:induction false} SplitJoin(parts: seq<string>, at: char)
    requires parts != [] && forall part :: part in parts ==> at !in part
    ensures Split(Join(parts, [at]), at) == parts
  {
    SplitWhole(parts[0], at);
    if |parts| > 1 {
      SplitJoin(parts[1..], at);
      SplitJoined(parts[0], Join(parts[1..], [at]), at);
      assert parts == [parts[0]] + parts[1..];
    }
  }

  predicate Distinct<T(==)>(items: seq<T>) {
    forall i, j :: 0 <= i < j < |items| ==> items[i] != items[j]
  }

  lemma DistinctConcat<T>(a: seq<T>, b: seq<T>)
    requires Distinct(a) && Distinct(b) && forall item :: item in b ==> item !in a
    ensures Distinct(a + b)
  {
    forall i, j | 0 <= i < j < |a + b| ensures (a + b)[i] != (a + b)[j] {
      if i < |a| <= j {
        assert (a + b)[j] == b[j - |a|] && b[j - |a|] in b;
      }
    }
  }
}
