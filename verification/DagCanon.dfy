/** The telemetry backend's canonical form of a coverage graph: encoded edges are made distinct, sorted
    as text, and decoded again, so that equal graphs hash equally. */
module DagCanon {
  import opened Decimal

  /** An edge as it travels: two texts, which for a graph over naturals are decimal numbers. */
  datatype TextEdge = TextEdge(src: string, dst: string)

  const ARROW := "->"

  function Encode(e: TextEdge): string { e.src + ARROW + e.dst }

  /** Where the arrow first occurs, or the length of the text. */
  function Find(s: string): (i: nat)
    ensures i <= |s|
  {
    if |s| < 2 then |s| else if s[..2] == ARROW then 0 else 1 + Find(s[1..])
  }

  /** The text before the first arrow, and the text from there to the next. */
  function Decode(s: string): TextEdge {
    var i := Find(s);
    var rest := if i + 2 <= |s| then s[i + 2..] else "";
    TextEdge(s[..i], rest[..Find(rest)])
  }

  // ------------------------------------------------------------------ text order

  /** Order by code units, a proper prefix first. */
  predicate Less(s: string, t: string)
    decreases |s|
  {
    if t == "" then false
    else if s == "" then true
    else s[0] < t[0] || (s[0] == t[0] && Less(s[1..], t[1..]))
  }

  /** Position i is where s first comes before t: they agree up to it, and there s ends or has the
      smaller character. */
  predicate FirstBelow(s: string, t: string, i: nat) {
    i <= |s| && i < |t| && s[..i] == t[..i] && (i == |s| || s[i] < t[i])
  }

  /** The order is the one of a dictionary. */
  lemma {:induction false} LessIsLexicographic(s: string, t: string)
    ensures Less(s, t) <==> exists i: nat :: FirstBelow(s, t, i)
    decreases |s|
  {
    if s == "" || t == "" {
      if s == "" && t != "" { assert FirstBelow(s, t, 0); }
    } else {
      LessIsLexicographic(s[1..], t[1..]);
      if s[0] < t[0] { assert FirstBelow(s, t, 0); }
      if i: nat :| s[0] == t[0] && FirstBelow(s[1..], t[1..], i) {
        assert s[..i + 1] == [s[0]] + s[1..][..i] && t[..i + 1] == [t[0]] + t[1..][..i];
        assert FirstBelow(s, t, i + 1);
      }
      if i: nat :| FirstBelow(s, t, i) {
        if i > 0 {
          assert s[..i][0] == s[0] && t[..i][0] == t[0];
          assert s[1..][..i - 1] == s[..i][1..] && t[1..][..i - 1] == t[..i][1..];
          assert FirstBelow(s[1..], t[1..], i - 1);
        }
      }
    }
  }

  lemma {:induction false} LessTotal(s: string, t: string)
    ensures s == t || Less(s, t) || Less(t, s)
    ensures !(Less(s, t) && Less(t, s)) && !Less(s, s)
    decreases |s|
  {
    if s != "" && t != "" {
      LessTotal(s[1..], t[1..]);
      LessTotal(s[1..], s[1..]);
      if s[0] == t[0] && s[1..] == t[1..] { assert s == [s[0]] + s[1..] == t; }
    } else if s != "" {
      LessTotal(s[1..], s[1..]);
    }
  }

  lemma {:induction false} LessTransitive(s: string, t: string, u: string)
    requires Less(s, t) && Less(t, u)
    ensures Less(s, u)
    decreases |s|
  {
    if s != "" && s[0] == t[0] == u[0] { LessTransitive(s[1..], t[1..], u[1..]); }
  }

  ghost predicate Sorted(s: seq<string>) {
    forall i, j :: 0 <= i < j < |s| ==> Less(s[i], s[j])
  }

  /** Inserts into a sorted list, in place of the library's sort. */
  function Insert(x: string, s: seq<string>): seq<string> {
    if s == [] then [x]
    else if x == s[0] then s
    else if Less(x, s[0]) then [x] + s
    else [s[0]] + Insert(x, s[1..])
  }

  function Sort(s: seq<string>): seq<string> {
    if s == [] then [] else Insert(s[0], Sort(s[1..]))
  }

  lemma {:induction false} InsertSorts(x: string, s: seq<string>)
    requires Sorted(s)
    ensures Sorted(Insert(x, s)) && forall y :: y in Insert(x, s) <==> y == x || y in s
  {
    if s != [] && x != s[0] {
      LessTotal(x, s[0]);
      assert s == [s[0]] + s[1..];
      if Less(x, s[0]) {
        forall j | 0 < j < |s| ensures Less(x, s[j]) { LessTransitive(x, s[0], s[j]); }
      } else {
        InsertSorts(x, s[1..]);
        var rest := Insert(x, s[1..]);
        forall j | 0 <= j < |rest| ensures Less(s[0], rest[j]) {
          assert rest[j] in rest;
          if rest[j] != x {
            var k :| 0 <= k < |s[1..]| && s[1..][k] == rest[j];
            assert Less(s[0], s[k + 1]);
          }
        }
      }
    }
  }

  lemma {:induction false} SortSorts(s: seq<string>)
    ensures Sorted(Sort(s)) && forall y :: y in Sort(s) <==> y in s
  {
    if s != [] {
      SortSorts(s[1..]);
      InsertSorts(s[0], Sort(s[1..]));
      assert s == [s[0]] + s[1..];
    }
  }

  lemma FirstIsIn(s: seq<string>)
    requires s != []
    ensures s[0] in s
  {
  }

  /** A strictly sorted list is determined by its elements. */
  lemma {:induction false} SortedUnique(s: seq<string>, t: seq<string>)
    requires Sorted(s) && Sorted(t) && forall x :: x in s <==> x in t
    ensures s == t
  {
    if s == [] {
      if t != [] { FirstIsIn(t); }
    } else {
      assert s[0] in s && s[0] in t;
      assert t[0] in t && t[0] in s;
      SortedFirst(s, t[0]);
      SortedFirst(t, s[0]);
      LessTotal(s[0], t[0]);
      assert s[0] == t[0];
      forall x ensures x in s[1..] <==> x in t[1..] {
        SortedRest(s, x);
        SortedRest(t, x);
      }
      SortedUnique(s[1..], t[1..]);
      assert s == [s[0]] + s[1..] && t == [t[0]] + t[1..];
    }
  }

  lemma SortedFirst(s: seq<string>, x: string)
    requires Sorted(s) && x in s
    ensures x == s[0] || Less(s[0], x)
  {
    var k :| 0 <= k < |s| && s[k] == x;
  }

  lemma SortedRest(s: seq<string>, x: string)
    requires Sorted(s) && s != []
    ensures x in s[1..] <==> x in s && x != s[0]
  {
    if x in s[1..] {
      var k :| 0 <= k < |s[1..]| && s[1..][k] == x;
      assert Less(s[0], s[k + 1]);
      LessTotal(s[0], x);
    }
    assert s == [s[0]] + s[1..];
  }

  // ------------------------------------------------------------------ canonicalisation

  function Encoded(dag: seq<TextEdge>): (s: seq<string>)
    ensures |s| == |dag| && forall i :: 0 <= i < |dag| ==> s[i] == Encode(dag[i])
  { seq(|dag|, i requires 0 <= i < |dag| => Encode(dag[i])) }

  function Decoded(texts: seq<string>): (dag: seq<TextEdge>)
    ensures |dag| == |texts| && forall i :: 0 <= i < |texts| ==> dag[i] == Decode(texts[i])
  { seq(|texts|, i requires 0 <= i < |texts| => Decode(texts[i])) }

  function Canonical(dag: seq<TextEdge>): seq<TextEdge> {
    Decoded(Sort(Encoded(dag)))
  }

  /** Fills a set with the encoded edges, sorts it and decodes. */
  method SanitizeDag(dag: seq<TextEdge>) returns (sanitized: seq<TextEdge>)
    ensures sanitized == Canonical(dag)
  {
    var pairs: seq<string> := [];  // a set in insertion order
    var i := 0;
    while i < |dag|
      invariant i <= |dag| && forall x :: x in pairs <==> x in Encoded(dag[..i])
    {
      var pair := Encode(dag[i]);
      assert Encoded(dag[..i + 1]) == Encoded(dag[..i]) + [pair];
      if pair !in pairs {
        pairs := pairs + [pair];
      }
      i := i + 1;
    }
    assert dag[..|dag|] == dag;
    SortSorts(pairs);
    SortSorts(Encoded(dag));
    SortedUnique(Sort(pairs), Sort(Encoded(dag)));
    sanitized := Decoded(Sort(pairs));
  }

  // ------------------------------------------------------------------ graphs over naturals

  predicate Numeric(e: TextEdge) { e.src != "" && e.dst != "" && AllDigits(e.src) && AllDigits(e.dst) }

  ghost predicate AllNumeric(dag: seq<TextEdge>) { forall i :: 0 <= i < |dag| ==> Numeric(dag[i]) }

  function FromEdges(edges: seq<Edge>): (dag: seq<TextEdge>)
    ensures |dag| == |edges| && AllNumeric(dag)
    ensures forall i :: 0 <= i < |edges| ==> dag[i] == TextEdge(Digits(edges[i].src), Digits(edges[i].dst))
  { seq(|edges|, i requires 0 <= i < |edges| => TextEdge(Digits(edges[i].src), Digits(edges[i].dst))) }

  lemma {:induction false} FindInDigits(digits: string, rest: string)
    requires AllDigits(digits)
    ensures rest == "" ==> Find(digits + rest) == |digits|
    ensures |rest| >= 2 && rest[..2] == ARROW ==> Find(digits + rest) == |digits|
  {
    var s := digits + rest;
    if digits == "" {
      assert s == rest;
    } else {
      FindInDigits(digits[1..], rest);
      assert s[1..] == digits[1..] + rest;
      assert s[0] == digits[0] && (|s| >= 2 ==> s[..2][0] == digits[0]);
    }
  }

  /** Decoding recovers every numeric edge. */
  lemma DecodeEncode(e: TextEdge)
    requires Numeric(e)
    ensures Decode(Encode(e)) == e
  {
    var s := Encode(e);
    assert s == e.src + (ARROW + e.dst);
    assert (ARROW + e.dst)[..2] == ARROW;
    FindInDigits(e.src, ARROW + e.dst);
    assert s[..|e.src|] == e.src && s[|e.src| + 2..] == e.dst;
    FindInDigits(e.dst, "");
    assert e.dst + "" == e.dst && e.dst[..|e.dst|] == e.dst;
  }

  /** The canonical form is strictly sorted by encoded text and lists exactly the graph's edges. */
  lemma CanonicalListsEdges(dag: seq<TextEdge>)
    requires AllNumeric(dag)
    ensures AllNumeric(Canonical(dag)) && Encoded(Canonical(dag)) == Sort(Encoded(dag))
    ensures Sorted(Encoded(Canonical(dag)))
    ensures forall e :: e in Canonical(dag) <==> e in dag
  {
    var texts := Sort(Encoded(dag));
    SortSorts(Encoded(dag));
    forall k | 0 <= k < |texts|
      ensures Numeric(Canonical(dag)[k]) && Encode(Canonical(dag)[k]) == texts[k] && Canonical(dag)[k] in dag
    {
      assert texts[k] in Encoded(dag);
      var i :| 0 <= i < |dag| && Encoded(dag)[i] == texts[k];
      DecodeEncode(dag[i]);
    }
    forall e | e in dag ensures e in Canonical(dag) {
      var i :| 0 <= i < |dag| && dag[i] == e;
      assert Encoded(dag)[i] in Encoded(dag);
      var k :| 0 <= k < |texts| && texts[k] == Encode(e);
      DecodeEncode(e);
      assert Canonical(dag)[k] == e;
    }
  }

  /** Two edge lists have the same canonical form exactly when they have the same edges; taking the
      canonical form again changes nothing. */
  lemma CanonicalForm(edges: seq<Edge>, others: seq<Edge>)
    ensures Canonical(FromEdges(edges)) == Canonical(FromEdges(others)) <==>
              forall e: Edge :: e in edges <==> e in others
    ensures Canonical(Canonical(FromEdges(edges))) == Canonical(FromEdges(edges))
  {
    var a, b := FromEdges(edges), FromEdges(others);
    CanonicalListsEdges(a);
    CanonicalListsEdges(b);
    CanonicalListsEdges(Canonical(a));
    if Canonical(a) == Canonical(b) {
      forall e: Edge ensures e in edges <==> e in others {
        ListedAsText(edges, e);
        ListedAsText(others, e);
      }
    }
    if forall e: Edge :: e in edges <==> e in others {
      forall t ensures t in Encoded(a) <==> t in Encoded(b) {
        SameTexts(edges, others, t);
        SameTexts(others, edges, t);
      }
      SortSorts(Encoded(a));
      SortSorts(Encoded(b));
      SortedUnique(Sort(Encoded(a)), Sort(Encoded(b)));
    }
    SortSorts(Encoded(a));
    SortSorts(Encoded(Canonical(a)));
    SortedUnique(Sort(Encoded(Canonical(a))), Sort(Encoded(a)));
  }

  lemma ListedAsText(edges: seq<Edge>, e: Edge)
    ensures e in edges <==> TextEdge(Digits(e.src), Digits(e.dst)) in FromEdges(edges)
  {
    var text := TextEdge(Digits(e.src), Digits(e.dst));
    if e in edges {
      var i :| 0 <= i < |edges| && edges[i] == e;
      assert FromEdges(edges)[i] == text;
    }
    if text in FromEdges(edges) {
      var i :| 0 <= i < |edges| && FromEdges(edges)[i] == text;
      ParseDigits(e.src); ParseDigits(e.dst); ParseDigits(edges[i].src); ParseDigits(edges[i].dst);
    }
  }

  lemma SameTexts(edges: seq<Edge>, others: seq<Edge>, t: string)
    requires forall e: Edge :: e in edges ==> e in others
    ensures t in Encoded(FromEdges(edges)) ==> t in Encoded(FromEdges(others))
  {
    if t in Encoded(FromEdges(edges)) {
      var i :| 0 <= i < |edges| && Encoded(FromEdges(edges))[i] == t;
      assert edges[i] in others;
      var j :| 0 <= j < |others| && others[j] == edges[i];
      assert Encoded(FromEdges(others))[j] == t;
    }
  }
}
