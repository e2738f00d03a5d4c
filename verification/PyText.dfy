/** Python's str.strip() without an argument. */
module PyText {
  /** The characters that str.strip() removes. */
  predicate IsSpace(c: char) {
    || '\t' <= c <= '\r' || '\U{1c}' <= c <= ' ' || c == '\U{85}' || c == '\U{a0}' || c == '\U{1680}'
    || '\U{2000}' <= c <= '\U{200a}' || c in ['\U{2028}', '\U{2029}', '\U{202f}', '\U{205f}', '\U{3000}']
  }

  /** They are these 29. */
  lemma SpacesListed(c: char)
    ensures IsSpace(c) <==>
              c in [ '\t', '\n', '\U{b}', '\U{c}', '\r', '\U{1c}', '\U{1d}', '\U{1e}', '\U{1f}', ' ',
                     '\U{85}', '\U{a0}', '\U{1680}', '\U{2000}', '\U{2001}', '\U{2002}', '\U{2003}', '\U{2004}',
                     '\U{2005}', '\U{2006}', '\U{2007}', '\U{2008}', '\U{2009}', '\U{200a}', '\U{2028}',
                     '\U{2029}', '\U{202f}', '\U{205f}', '\U{3000}' ]
  {
  }

  predicate AllSpace(s: string) {
    forall i :: 0 <= i < |s| ==> IsSpace(s[i])
  }

  function TrimLeft(s: string): string {
    if s != "" && IsSpace(s[0]) then TrimLeft(s[1..]) else s
  }

  function TrimRight(s: string): string {
    if s != "" && IsSpace(s[|s| - 1]) then TrimRight(s[..|s| - 1]) else s
  }

  function Trim(s: string): string {
    TrimRight(TrimLeft(s))
  }

  lemma {:induction false} TrimLeftParts(s: string)
    ensures exists a: string :: AllSpace(a) && s == a + TrimLeft(s)
    ensures TrimLeft(s) != "" ==> !IsSpace(TrimLeft(s)[0])
  {
    if s != "" && IsSpace(s[0]) {
      TrimLeftParts(s[1..]);
      var a: string :| AllSpace(a) && s[1..] == a + TrimLeft(s[1..]);
      assert s == ([s[0]] + a) + TrimLeft(s);
      assert AllSpace([s[0]] + a);
    } else {
      assert s == "" + TrimLeft(s);
      assert AllSpace("");
    }
  }

  lemma {:induction false} TrimRightParts(s: string)
    ensures exists b: string :: AllSpace(b) && s == TrimRight(s) + b
    ensures var r := TrimRight(s); r != "" ==> !IsSpace(r[|r| - 1])
  {
    if s != "" && IsSpace(s[|s| - 1]) {
      var last := s[|s| - 1];
      TrimRightParts(s[..|s| - 1]);
      var b: string :| AllSpace(b) && s[..|s| - 1] == TrimRight(s[..|s| - 1]) + b;
      assert s == TrimRight(s) + (b + [last]);
      assert AllSpace(b + [last]);
    } else {
      assert s == TrimRight(s) + "";
      assert AllSpace("");
    }
  }

  /** Trim drops white space from both ends, and only that, and leaves none at either end. */
  lemma TrimParts(s: string)
    ensures exists a: string, b: string :: AllSpace(a) && AllSpace(b) && s == a + (Trim(s) + b)
    ensures var t := Trim(s); t != "" ==> !IsSpace(t[0]) && !IsSpace(t[|t| - 1])
  {
    TrimLeftParts(s);
    var l := TrimLeft(s);
    TrimRightParts(l);
    var a: string :| AllSpace(a) && s == a + l;
    var b: string :| AllSpace(b) && l == Trim(s) + b;
    assert s == a + (Trim(s) + b);
    if Trim(s) != "" {
      assert Trim(s)[0] == l[0];
    }
  }

  lemma EmptyTrimIffAllSpace(s: string)
    ensures Trim(s) == "" <==> AllSpace(s)
  {
    TrimParts(s);
    var a: string, b: string :| AllSpace(a) && AllSpace(b) && s == a + (Trim(s) + b);
    if Trim(s) != "" {
      assert s[|a|] == Trim(s)[0];
    }
  }

  lemma TrimIsTrimmed(s: string)
    ensures Trim(Trim(s)) == Trim(s) && |Trim(s)| <= |s|
  {
    TrimParts(s);
  }
}
