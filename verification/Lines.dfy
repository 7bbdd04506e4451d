/** Splitting a sequence at a separator the way strings.Split does, and picking lines.
    Used on bytes for log files and on characters for configuration text. */
module Lines {
  newtype Byte = x: int | 0 <= x < 256

  const NL: Byte := 10

  type Text = seq<Byte>

  /** Always at least one piece; a final separator is followed by an empty last piece. */
  function SplitAt<T(==)>(s: seq<T>, sep: T): (ls: seq<seq<T>>)
    ensures |ls| >= 1
  {
    if s == [] then [[]]
    else
      var rest := SplitAt(s[1..], sep);
      if s[0] == sep then [[]] + rest else [[s[0]] + rest[0]] + rest[1..]
  }

  function Split(s: Text): (ls: seq<Text>)
    ensures |ls| >= 1
  {
    SplitAt(s, NL)
  }

  function Newlines(s: Text): nat {
    if s == [] then 0 else Newlines(s[1..]) + if s[0] == NL then 1 else 0
  }

  lemma {:induction false} SplitCount(s: Text)
    ensures |Split(s)| == Newlines(s) + 1
  {
    if s != [] { SplitCount(s[1..]); }
  }

  /** Two piece lists of adjacent sequences: the pieces at the seam become one. */
  function Seam<T>(la: seq<seq<T>>, lb: seq<seq<T>>): seq<seq<T>>
    requires |la| >= 1 && |lb| >= 1
  {
    la[..|la| - 1] + [la[|la| - 1] + lb[0]] + lb[1..]
  }

  lemma SeamEmpty<T>(lb: seq<seq<T>>)
    requires |lb| >= 1
    ensures Seam([[]], lb) == lb
  {
    assert [] + lb[0] == lb[0];
  }

  lemma SeamAfterSeparator<T>(la: seq<seq<T>>, lb: seq<seq<T>>)
    requires |la| >= 1 && |lb| >= 1
    ensures Seam([[]] + la, lb) == [[]] + Seam(la, lb)
  {
    var more := [[]] + la;
    assert more[..|more| - 1] == [[]] + la[..|la| - 1];
  }

  lemma SeamAfterElement<T>(c: T, la: seq<seq<T>>, lb: seq<seq<T>>)
    requires |la| >= 1 && |lb| >= 1
    ensures Seam([[c] + la[0]] + la[1..], lb) == [[c] + Seam(la, lb)[0]] + Seam(la, lb)[1..]
  {
    var more := [[c] + la[0]] + la[1..];
    if |la| == 1 {
      assert [c] + (la[0] + lb[0]) == more[0] + lb[0];
    } else {
      assert more[..|more| - 1] == [[c] + la[0]] + la[..|la| - 1][1..];
    }
  }

  lemma SeamEnds<T>(la: seq<seq<T>>, lb: seq<seq<T>>)
    requires |la| >= 1 && |lb| >= 1
    ensures |Seam(la, lb)| == |la| + |lb| - 1 && Seam(la, lb)[|la|..] == lb[1..]
  {
  }

  /** Splitting a concatenation. */
  lemma {:induction false} SplitJoin<T>(a: seq<T>, b: seq<T>, sep: T)
    ensures SplitAt(a + b, sep) == Seam(SplitAt(a, sep), SplitAt(b, sep))
  {
    hide Seam;
    if a == [] {
      assert a + b == b;
      SeamEmpty(SplitAt(b, sep));
    } else {
      SplitJoin(a[1..], b, sep);
      assert (a + b)[1..] == a[1..] + b;
      SeamAfterSeparator(SplitAt(a[1..], sep), SplitAt(b, sep));
      SeamAfterElement(a[0], SplitAt(a[1..], sep), SplitAt(b, sep));
    }
  }

  lemma {:induction false} SplitOne<T>(s: seq<T>, sep: T)
    requires sep !in s
    ensures SplitAt(s, sep) == [s]
  {
    if s != [] {
      assert s[0] in s;
      SplitOne(s[1..], sep);
      assert s == [s[0]] + s[1..];
    }
  }

  lemma {:induction false} NoSeparatorInside<T>(s: seq<T>, sep: T)
    ensures forall l :: l in SplitAt(s, sep) ==> sep !in l && forall c :: c in l ==> c in s
  {
    if s != [] {
      NoSeparatorInside(s[1..], sep);
      var rest := SplitAt(s[1..], sep);
      assert rest[0] in rest;
      assert forall l :: l in rest[1..] ==> l in rest;
    }
  }

  /** A chunk in front of a tail: only the tail's first line, carried over, matters. */
  lemma SplitChunk(chunk: Text, tail: Text)
    ensures Split(chunk + tail) == Split(chunk + Split(tail)[0]) + Split(tail)[1..]
  {
    var carry := Split(tail)[0];
    SplitJoin(chunk, tail, NL);
    NoSeparatorInside(tail, NL);
    assert carry in Split(tail);
    SplitOne(carry, NL);
    SplitJoin(chunk, carry, NL);
  }

  // ---------- filters and last lines ----------

  function Filter(ls: seq<Text>, p: Text -> bool): seq<Text> {
    if ls == [] then [] else (if p(ls[0]) then [ls[0]] else []) + Filter(ls[1..], p)
  }

  function LastN(ls: seq<Text>, n: int): seq<Text> {
    if n <= 0 then [] else if |ls| <= n then ls else ls[|ls| - n..]
  }

  function Reverse(ls: seq<Text>): seq<Text> {
    if ls == [] then [] else Reverse(ls[1..]) + [ls[0]]
  }

  lemma {:induction false} ReverseAt(ls: seq<Text>, k: nat)
    requires k < |ls|
    ensures |Reverse(ls)| == |ls| && Reverse(ls)[k] == ls[|ls| - 1 - k]
  {
    if |ls| > 1 { ReverseAt(ls[1..], if k < |ls| - 1 then k else 0); }
  }

  /** Collecting matches from the newest line backwards, up to the limit. */
  function Newest(ls: seq<Text>, p: Text -> bool, n: int): seq<Text> {
    if ls == [] then []
    else
      var found := Newest(ls[1..], p, n);
      if |found| < n && p(ls[0]) then found + [ls[0]] else found
  }

  lemma {:induction false} NewestIsReversedLast(ls: seq<Text>, p: Text -> bool, n: int)
    ensures Reverse(Newest(ls, p, n)) == LastN(Filter(ls, p), n)
    ensures |Newest(ls, p, n)| == |LastN(Filter(ls, p), n)|
  {
    if ls != [] {
      NewestIsReversedLast(ls[1..], p, n);
      OneOlder(Newest(ls[1..], p, n), Filter(ls[1..], p), ls[0], p(ls[0]), n);
    }
  }

  /** One line more in front. */
  lemma OneOlder(found: seq<Text>, rest: seq<Text>, x: Text, match_: bool, n: int)
    requires Reverse(found) == LastN(rest, n) && |found| == |LastN(rest, n)|
    ensures var found' := if |found| < n && match_ then found + [x] else found;
      var rest' := if match_ then [x] + rest else [] + rest;
      Reverse(found') == LastN(rest', n) && |found'| == |LastN(rest', n)|
  {
    hide Reverse;
    ReverseSnoc(found, x);
    assert [] + rest == rest;
    if |rest| >= n > 0 { assert ([x] + rest)[|rest| + 1 - n..] == rest[|rest| - n..]; }
  }

  lemma {:induction false} ReverseSnoc(ls: seq<Text>, x: Text)
    ensures Reverse(ls + [x]) == [x] + Reverse(ls)
  {
    if ls == [] {
      assert ls + [x] == [x];
    } else {
      ReverseSnoc(ls[1..], x);
      assert (ls + [x])[1..] == ls[1..] + [x];
    }
  }

  /** Once the limit is reached, older lines change nothing. */
  lemma {:induction false} NewestFull(older: seq<Text>, ls: seq<Text>, p: Text -> bool, n: int)
    requires |Newest(ls, p, n)| >= n
    ensures Newest(older + ls, p, n) == Newest(ls, p, n)
  {
    if older == [] {
      assert older + ls == ls;
    } else {
      NewestFull(older[1..], ls, p, n);
      assert (older + ls)[1..] == older[1..] + ls;
    }
  }
}
