/** The pipeline `field.split(",").map((x) => x.trim()).filter(Boolean)` that
    turns a free-text field into a list of entries. */
module CommaList {
  import opened Text

  /** How many commas `s` contains. */
  function Commas(s: string): nat {
    multiset(s)[',']
  }

  /** `s.split(",")`: the pieces between commas, in order. Like JavaScript's
      `split`, it yields one more piece than there are commas, so "" gives
      [""] and "," gives ["", ""]. */
  function Split(s: string): (r: seq<string>)
    ensures |r| >= 1
  {
    if s == [] then [""]
    else
      var rest := Split(s[1..]);
      if s[0] == ',' then [""] + rest
      else [[s[0]] + rest[0]] + rest[1..]
  }

  /** The inverse of `Split`: the pieces glued back with commas. */
  function Join(ps: seq<string>): string {
    if |ps| <= 1 then (if ps == [] then "" else ps[0])
    else ps[0] + "," + Join(ps[1..])
  }

  /** `.map((x) => x.trim())`. */
  function TrimEach(ps: seq<string>): (r: seq<string>)
    ensures |r| == |ps|
  {
    if ps == [] then [] else [Trim(ps[0])] + TrimEach(ps[1..])
  }

  lemma {:induction false} TrimEachAt(ps: seq<string>, i: nat)
    requires i < |ps|
    ensures TrimEach(ps)[i] == Trim(ps[i])
  {
    var r := TrimEach(ps);
    assert r == [Trim(ps[0])] + TrimEach(ps[1..]);
    if i > 0 {
      TrimEachAt(ps[1..], i - 1);
      assert r[i] == TrimEach(ps[1..])[i - 1];
    }
  }

  /** `.filter(Boolean)`: the non-empty strings, in their order. */
  function DropEmpty(ps: seq<string>): (r: seq<string>)
    ensures |r| <= |ps|
  {
    if ps == [] then []
    else if ps[0] == "" then DropEmpty(ps[1..])
    else [ps[0]] + DropEmpty(ps[1..])
  }

  /** A parsed entry: non-empty, trimmed, comma-free. */
  predicate IsToken(t: string) {
    t != "" && IsTrimmed(t) && ',' !in t
  }

  /** The whole pipeline. */
  function ParseList(s: string): seq<string> {
    DropEmpty(TrimEach(Split(s)))
  }

  /** Every entry is non-empty, has no white space at either end and holds
      no comma; there are at most one more entries than commas. */
  lemma ParseListTokens(s: string)
    ensures forall i :: 0 <= i < |ParseList(s)| ==> IsToken(ParseList(s)[i])
    ensures |ParseList(s)| <= Commas(s) + 1
  {
    var pieces := Split(s);
    SplitLength(s);
    SplitCommaFree(s);
    forall i | 0 <= i < |pieces| ensures ',' !in Trim(pieces[i]) {
      TrimKeepsOut(pieces[i], ',');
    }
    var trimmed := TrimEach(pieces);
    DropEmptyMembers(trimmed);
    var r := DropEmpty(trimmed);
    forall i | 0 <= i < |r| ensures IsToken(r[i]) {
      assert r[i] in r;
      var j :| 0 <= j < |trimmed| && trimmed[j] == r[i];
      TrimEachAt(pieces, j);
    }
  }

  /** There is one more piece than there are commas. */
  lemma {:induction false} SplitLength(s: string)
    ensures |Split(s)| == Commas(s) + 1
  {
    if s != [] {
      SplitLength(s[1..]);
      assert s == [s[0]] + s[1..];
      assert multiset(s) == multiset{s[0]} + multiset(s[1..]);
    }
  }

  /** No piece contains a comma. */
  lemma {:induction false} SplitCommaFree(s: string)
    ensures forall i :: 0 <= i < |Split(s)| ==> ',' !in Split(s)[i]
  {
    if s != [] {
      SplitCommaFree(s[1..]);
      var rest := Split(s[1..]);
      if s[0] != ',' {
        assert ',' !in rest[0];
        assert ',' !in [s[0]] + rest[0];
      }
    }
  }

  /** `DropEmpty` keeps exactly the non-empty strings. */
  lemma {:induction false} DropEmptyMembers(ps: seq<string>)
    ensures forall t :: t in DropEmpty(ps) <==> t in ps && t != ""
  {
    if ps != [] {
      DropEmptyMembers(ps[1..]);
      assert ps == [ps[0]] + ps[1..];
    }
  }

  /** A comma-free string is a single piece. */
  lemma {:induction false} SplitNoComma(s: string)
    requires ',' !in s
    ensures Split(s) == [s]
  {
    if s != [] {
      assert s == [s[0]] + s[1..];
      SplitNoComma(s[1..]);
    }
  }

  lemma AppendAssoc<T>(x: seq<T>, y: seq<T>, z: seq<T>)
    ensures x + (y + z) == (x + y) + z
  {
  }

  /** Splitting at a comma splits the pieces: the pieces of `a + "," + b` are
      the pieces of `a` followed by the pieces of `b`. */
  lemma {:induction false} SplitAppend(a: string, b: string)
    ensures Split(a + "," + b) == Split(a) + Split(b)
  {
    var s := a + "," + b;
    if a == [] {
      assert s[0] == ',' && s[1..] == b;
      assert Split(a) == [""];
      assert Split(s) == [""] + Split(b);
      assert a + "," + b == s;
    } else {
      var t := a[1..] + "," + b;
      assert s[0] == a[0] && s[1..] == t;
      SplitAppend(a[1..], b);
      var rest, ra := Split(t), Split(a[1..]);
      assert rest == ra + Split(b);
      if a[0] == ',' {
        assert Split(s) == [""] + rest;
        assert Split(a) == [""] + ra;
        AppendAssoc([""], ra, Split(b));
      } else {
        assert Split(s) == [[a[0]] + rest[0]] + rest[1..];
        assert Split(a) == [[a[0]] + ra[0]] + ra[1..];
        assert rest[0] == ra[0];
        assert rest[1..] == ra[1..] + Split(b);
        var head := [[a[0]] + ra[0]];
        AppendAssoc(head, ra[1..], Split(b));
      }
    }
  }

  /** Gluing the pieces back gives the input. */
  lemma {:induction false} JoinSplit(s: string)
    ensures Join(Split(s)) == s
  {
    if s != [] {
      var rest := Split(s[1..]);
      var r := Split(s);
      assert s == [s[0]] + s[1..];
      if s[0] == ',' {
        assert r == [""] + rest && r[1..] == rest;
        calc {
          Join(r);
          "" + "," + Join(rest);
          { JoinSplit(s[1..]); }
          "," + s[1..];
        }
      } else if |rest| == 1 {
        calc {
          Join(r);
          [s[0]] + rest[0];
          { JoinSplit(s[1..]); }
          [s[0]] + s[1..];
        }
      } else {
        assert r[1..] == rest[1..];
        calc {
          Join(r);
          ([s[0]] + rest[0]) + "," + Join(rest[1..]);
          { AppendAssoc([s[0]], rest[0], "," + Join(rest[1..])); }
          [s[0]] + (rest[0] + "," + Join(rest[1..]));
          [s[0]] + Join(rest);
          { JoinSplit(s[1..]); }
          [s[0]] + s[1..];
        }
      }
    }
  }

  /** Splitting comma-free pieces glued with commas gives the pieces back. */
  lemma {:induction false} SplitJoin(ps: seq<string>)
    requires |ps| >= 1
    requires forall i :: 0 <= i < |ps| ==> ',' !in ps[i]
    ensures Split(Join(ps)) == ps
  {
    if |ps| == 1 {
      SplitNoComma(ps[0]);
    } else {
      SplitJoin(ps[1..]);
      SplitNoComma(ps[0]);
      SplitAppend(ps[0], Join(ps[1..]));
      assert ps == [ps[0]] + ps[1..];
    }
  }

  lemma {:induction false} TrimEachAppend(a: seq<string>, b: seq<string>)
    ensures TrimEach(a + b) == TrimEach(a) + TrimEach(b)
  {
    if a == [] {
      assert a + b == b;
    } else {
      assert (a + b)[0] == a[0];
      assert (a + b)[1..] == a[1..] + b;
      TrimEachAppend(a[1..], b);
    }
  }

  lemma {:induction false} DropEmptyAppend(a: seq<string>, b: seq<string>)
    ensures DropEmpty(a + b) == DropEmpty(a) + DropEmpty(b)
  {
    if a == [] {
      assert a + b == b;
    } else {
      assert (a + b)[0] == a[0];
      assert (a + b)[1..] == a[1..] + b;
      DropEmptyAppend(a[1..], b);
    }
  }

  /** Parsing respects the commas: the entries of `a + "," + b` are those of
      `a` followed by those of `b`, so entries keep the order of the
      segments they come from. */
  lemma ParseListAppend(a: string, b: string)
    ensures ParseList(a + "," + b) == ParseList(a) + ParseList(b)
  {
    SplitAppend(a, b);
    TrimEachAppend(Split(a), Split(b));
    DropEmptyAppend(TrimEach(Split(a)), TrimEach(Split(b)));
  }

  /** A segment without commas yields its trimmed text, or nothing when that
      is empty. */
  lemma ParseListSegment(s: string)
    requires ',' !in s
    ensures ParseList(s) == if Trim(s) == "" then [] else [Trim(s)]
  {
    SplitNoComma(s);
    assert TrimEach([s]) == [Trim(s)];
  }

  /** A single entry parses to itself. */
  lemma ParseListToken(t: string)
    requires IsToken(t)
    ensures ParseList(t) == [t]
  {
    TrimmedIsFixed(t);
    ParseListSegment(t);
  }

  /** An entry typed after a space, as in "a, b", parses to itself. */
  lemma ParseListPaddedToken(t: string)
    requires IsToken(t)
    ensures ParseList(" " + t) == [t]
  {
    var p := " " + t;
    assert ',' !in p by {
      assert forall i :: 0 < i < |p| ==> p[i] == t[i - 1];
    }
    assert Trim(p) == t by {
      TrimPadded(t);
    }
    ParseListSegment(p);
  }

  /** Two entries typed as "a, b" parse to the pair. */
  lemma ParseListPair(a: string, b: string)
    requires IsToken(a) && IsToken(b)
    ensures ParseList(a + ", " + b) == [a, b]
  {
    assert a + ", " + b == a + "," + (" " + b);
    calc {
      ParseList(a + "," + (" " + b));
      { ParseListAppend(a, " " + b); }
      ParseList(a) + ParseList(" " + b);
      { ParseListToken(a); ParseListPaddedToken(b); }
      [a] + [b];
    }
  }

  /** Stray spaces and an empty piece between two commas are dropped:
      "a, b ,,c" gives the three entries. */
  lemma ParseListExample()
    ensures ParseList("a, b ,,c") == ["a", "b", "c"]
  {
    assert "a" + ", " + "b" + " ,," + "c" == "a, b ,,c";
    ParseListTriple("a", "b", "c");
  }

  lemma ParseListTriple(a: string, b: string, c: string)
    requires IsToken(a) && IsToken(b) && IsToken(c)
    ensures ParseList(a + ", " + b + " ,," + c) == [a, b, c]
  {
    var mid := " " + b + " ";
    assert a + ", " + b + " ,," + c == a + "," + (mid + "," + ("," + c));
    calc {
      ParseList(a + "," + (mid + "," + ("," + c)));
      { ParseListAppend(a, mid + "," + ("," + c)); }
      ParseList(a) + ParseList(mid + "," + ("," + c));
      { ParseListAppend(mid, "," + c); }
      ParseList(a) + (ParseList(mid) + ParseList("," + c));
      { ParseListToken(a); ParseListSpacedToken(b); ParseListLeadingComma(c); }
      [a] + ([b] + [c]);
    }
  }

  /** An entry with a space on each side parses to itself. */
  lemma ParseListSpacedToken(t: string)
    requires IsToken(t)
    ensures ParseList(" " + t + " ") == [t]
  {
    var p := " " + t + " ";
    assert ',' !in p by {
      assert forall i :: 0 < i < |p| - 1 ==> p[i] == t[i - 1];
    }
    assert Trim(p) == t by {
      TrimSpaced(t);
    }
    ParseListSegment(p);
  }

  /** An empty piece before an entry is dropped. */
  lemma ParseListLeadingComma(t: string)
    requires IsToken(t)
    ensures ParseList("," + t) == [t]
  {
    assert "" + "," + t == "," + t;
    calc {
      ParseList("" + "," + t);
      { ParseListAppend("", t); }
      ParseList("") + ParseList(t);
      { ParseListSegment(""); ParseListToken(t); }
      [t];
    }
  }

  /** Entries joined with commas parse back to the same entries. */
  lemma {:induction false} ParseListJoin(ts: seq<string>)
    requires forall i :: 0 <= i < |ts| ==> IsToken(ts[i])
    ensures ParseList(Join(ts)) == ts
  {
    if ts == [] {
      ParseListSegment("");
    } else if |ts| == 1 {
      ParseListToken(ts[0]);
    } else {
      var t, more := ts[0], ts[1..];
      assert forall i :: 0 <= i < |more| ==> IsToken(more[i]) by {
        forall i | 0 <= i < |more| ensures IsToken(more[i]) {
          assert more[i] == ts[i + 1];
        }
      }
      var rest := Join(more);
      calc {
        ParseList(Join(ts));
        ParseList(t + "," + rest);
        { ParseListAppend(t, rest); }
        ParseList(t) + ParseList(rest);
        { ParseListToken(t); ParseListJoin(more); }
        [t] + more;
        ts;
      }
    }
  }

  /** Re-parsing the entries, glued with commas, changes nothing. */
  lemma ParseListStable(s: string)
    ensures ParseList(Join(ParseList(s))) == ParseList(s)
  {
    ParseListTokens(s);
    ParseListJoin(ParseList(s));
  }

  /** Only white space and commas. */
  ghost predicate IsBlank(s: string) {
    forall i :: 0 <= i < |s| ==> IsSpace(s[i]) || s[i] == ','
  }

  lemma BlankAppend(a: string, b: string)
    ensures IsBlank(a + "," + b) <==> IsBlank(a) && IsBlank(b)
  {
    var s := a + "," + b;
    assert forall i :: 0 <= i < |a| ==> s[i] == a[i];
    assert forall i :: 0 <= i < |b| ==> s[|a| + 1 + i] == b[i];
  }

  /** An input yields no entry exactly when it holds nothing but white space
      and commas: this is why "," passes the submit guard yet parses to []. */
  lemma {:induction false} ParseListEmptyIff(s: string)
    ensures ParseList(s) == [] <==> IsBlank(s)
    decreases |s|
  {
    if ',' !in s {
      ParseListSegment(s);
      TrimEmptyIff(s);
    } else {
      var k :| 0 <= k < |s| && s[k] == ',';
      var a, b := s[..k], s[k + 1..];
      assert s == a + "," + b;
      ParseListAppend(a, b);
      BlankAppend(a, b);
      ParseListEmptyIff(a);
      ParseListEmptyIff(b);
    }
  }
}
