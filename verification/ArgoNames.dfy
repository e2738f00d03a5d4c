/** Pod names as the Argo Workflows controller derives them from a workflow and a node. */
module ArgoNames {
  import opened Fnv32

  const MAX_RESOURCE_NAME: nat := 253
  const HASH_LENGTH: nat := 10
  const MAX_PREFIX: nat := MAX_RESOURCE_NAME - HASH_LENGTH

  /** A workflow node; an absent field is the empty string. */
  datatype Node = Node(nodeType: string, name: string, id: string, templateName: string, refTemplate: string)

  // ----- text

  function Utf8(c: char): seq<Byte> {
    var n := c as int;
    if n < 0x80 then [n]
    else if n < 0x800 then [0xC0 + n / 0x40, 0x80 + n % 0x40]
    else if n < 0x1_0000 then [0xE0 + n / 0x1000, 0x80 + n / 0x40 % 0x40, 0x80 + n % 0x40]
    else [0xF0 + n / 0x4_0000, 0x80 + n / 0x1000 % 0x40, 0x80 + n / 0x40 % 0x40, 0x80 + n % 0x40]
  }

  function Encode(s: string): seq<Byte> {
    if s == "" then [] else Utf8(s[0]) + Encode(s[1..])
  }

  function Digit(d: nat): char
    requires d < 10
  {
    '0' + d as char
  }

  function Decimal(n: nat): string {
    if n < 10 then [Digit(n)] else Decimal(n / 10) + [Digit(n % 10)]
  }

  // ----- the name

  function OrElse(a: string, b: string): string {
    if a != "" then a else b
  }

  /** Without a last extension: a dot and at least one character that is neither a dot nor a slash. */
  function WithoutExtension(s: string): string {
    var i := LastOf(s, |s|);
    if i < |s| - 1 && s[i] == '.' then s[..i] else s
  }

  /** Index before n of the last dot or slash of s; |s| when there is none. */
  function LastOf(s: string, n: nat): (i: nat)
    requires n <= |s|
    ensures i <= |s|
    ensures i < |s| ==> i < n && s[i] in "./"
    ensures forall j :: (if i < |s| then i else -1) < j < n ==> s[j] !in "./"
  {
    if n == 0 then |s| else if s[n - 1] in "./" then n - 1 else LastOf(s, n - 1)
  }

  function PodNodeName(nodeId: string, node: Node): string {
    var raw := OrElse(OrElse(node.name, node.id), nodeId);
    if node.nodeType == "Container" then WithoutExtension(raw) else raw
  }

  function Prefix(workflow: string, node: Node): string {
    var template := OrElse(node.templateName, node.refTemplate);
    var prefix := if template != "" then workflow + "-" + template else workflow;
    if |prefix| > MAX_PREFIX - 1 then prefix[..MAX_PREFIX - 1] else prefix
  }

  function PodName(workflow: string, nodeId: string, node: Node): string {
    var name := PodNodeName(nodeId, node);
    if name == workflow then workflow
    else Prefix(workflow, node) + "-" + Decimal(Hash(Encode(name)))
  }

  // ----- properties

  /** What WithoutExtension removes is one extension, and it removes one whenever there is one. */
  lemma ExtensionRemoved(s: string)
    ensures var r := WithoutExtension(s);
            if r != s then
              exists e: string :: e != "" && '.' !in e && '/' !in e && s == r + "." + e
            else
              forall r': string, e: string :: e != "" && '.' !in e && '/' !in e ==> s != r' + "." + e
  {
    var i := LastOf(s, |s|);
    if i < |s| - 1 && s[i] == '.' {
      assert s == s[..i] + "." + s[i + 1..];
      assert s[..i] != s;
    } else {
      forall r': string, e: string | e != "" && '.' !in e && '/' !in e
        ensures s != r' + "." + e
      {
        if s == r' + "." + e {
          DotIsLast(s, r', e);
        }
      }
    }
  }

  lemma DotIsLast(s: string, r: string, e: string)
    requires e != "" && '.' !in e && '/' !in e && s == r + "." + e
    ensures LastOf(s, |s|) == |r| < |s| - 1 && s[|r|] == '.'
  {
    assert s[|r|] == '.';
    forall j | |r| < j < |s|
      ensures s[j] !in "./"
    {
      assert s[j] == e[j - |r| - 1];
    }
  }

  lemma {:induction false} DecimalInjective(m: nat, n: nat)
    requires Decimal(m) == Decimal(n)
    ensures m == n
  {
    LastDigit(m);
    LastDigit(n);
    if m >= 10 && n >= 10 {
      assert Decimal(m)[..|Decimal(m)| - 1] == Decimal(m / 10);
      assert Decimal(n)[..|Decimal(n)| - 1] == Decimal(n / 10);
      DecimalInjective(m / 10, n / 10);
    } else if m >= 10 {
      DecimalNotEmpty(m / 10);
    } else if n >= 10 {
      DecimalNotEmpty(n / 10);
    }
  }

  lemma DecimalNotEmpty(n: nat)
    ensures Decimal(n) != ""
  {
  }

  lemma LastDigit(n: nat)
    ensures Decimal(n) != "" && Decimal(n)[|Decimal(n)| - 1] == Digit(n % 10)
  {
  }

  lemma {:induction false} DecimalLength(n: nat, digits: nat, bound: nat)
    requires digits > 0 && n < bound && bound == Pow10(digits)
    ensures |Decimal(n)| <= digits
  {
    if n >= 10 {
      DecimalLength(n / 10, digits - 1, bound / 10);
    }
  }

  function Pow10(n: nat): nat {
    if n == 0 then 1 else 10 * Pow10(n - 1)
  }

  lemma {:induction false} EncodeAppend(s: string, t: string)
    ensures Encode(s + t) == Encode(s) + Encode(t)
  {
    if s == "" {
      assert s + t == t;
    } else {
      assert (s + t)[1..] == s[1..] + t;
      EncodeAppend(s[1..], t);
    }
  }

  lemma EncodeAround(front: string, u: string, back: string)
    ensures Encode(front + u + back) == Encode(front) + Encode(u) + Encode(back)
  {
    EncodeAppend(front + u, back);
    EncodeAppend(front, u);
  }

  lemma EncodeOne(c: char)
    ensures Encode([c]) == Utf8(c)
  {
    assert Encode([c]) == Utf8(c) + [];
  }

  lemma Digits(n: nat)
    ensures n == n / 0x1000 * 0x1000 + n / 0x40 % 0x40 * 0x40 + n % 0x40
    ensures n / 0x4_0000 == n / 0x1000 / 0x40
  {
    assert n / 0x1000 == n / 0x40 / 0x40;
  }

  /** Two different characters with UTF-8 forms of one length, of one block of 4096 characters, differ
      only within two adjacent bytes. */
  lemma CharactersDifferAt(c: char, d: char) returns (i: nat)
    requires c != d && |Utf8(c)| == |Utf8(d)| && c as int / 0x1000 == d as int / 0x1000
    ensures Utf8(c) != Utf8(d) && DifferAt(Utf8(c), Utf8(d), i)
  {
    i := if |Utf8(c)| <= 2 then 0 else |Utf8(c)| - 2;
    Digits(c as int);
    Digits(d as int);
    var l := |Utf8(c)| - 1;
    assert l > 0 && Utf8(c)[l] == Utf8(d)[l] ==> c as int % 0x40 == d as int % 0x40;
    assert l == 1 ==> Utf8(c)[0] != Utf8(d)[0] || Utf8(c)[1] != Utf8(d)[1];
    assert l > 1 && Utf8(c)[l - 1] == Utf8(d)[l - 1] ==> c as int / 0x40 % 0x40 == d as int / 0x40 % 0x40;
    assert l > 1 ==> Utf8(c)[l - 1] != Utf8(d)[l - 1] || Utf8(c)[l] != Utf8(d)[l];
  }

  lemma DifferInside(f: seq<Byte>, x: seq<Byte>, y: seq<Byte>, b: seq<Byte>, i: nat)
    requires x != y && DifferAt(x, y, i)
    ensures f + x + b != f + y + b && DifferAt(f + x + b, f + y + b, |f| + i)
  {
    var s, t := f + x + b, f + y + b;
    forall j | 0 <= j < |s| && s[j] != t[j]
      ensures |f| + i <= j <= |f| + i + 1
    {
      assert |f| <= j < |f| + |x| && x[j - |f|] != y[j - |f|];
    }
    var j :| 0 <= j < |x| && x[j] != y[j];
    assert s[|f| + j] != t[|f| + j];
  }

  /** Node names with parts in the same place whose UTF-8 forms are different, but only within two adjacent
      bytes, never have the same hash. */
  lemma NodeNamesDoNotCollide(front: string, u: string, v: string, back: string, i: nat)
    requires Encode(u) != Encode(v) && DifferAt(Encode(u), Encode(v), i)
    ensures Hash(Encode(front + u + back)) != Hash(Encode(front + v + back))
  {
    EncodeAround(front, u, back);
    EncodeAround(front, v, back);
    hide Hash, Encode;
    var f, b, x, y := Encode(front), Encode(back), Encode(u), Encode(v);
    DifferInside(f, x, y, b, i);
    hide DifferAt;
    AdjacentBytesDecide(f + x + b, f + y + b, |f| + i);
  }

  /** So names that differ in one character never do, if the two characters have UTF-8 forms of one length
      and belong to one block of 4096 characters, as all ASCII characters do. */
  lemma OneCharacterDecides(front: string, c: char, d: char, back: string)
    requires c != d && |Utf8(c)| == |Utf8(d)| && c as int / 0x1000 == d as int / 0x1000
    ensures Hash(Encode(front + [c] + back)) != Hash(Encode(front + [d] + back))
  {
    EncodeOne(c);
    EncodeOne(d);
    var i := CharactersDifferAt(c, d);
    NodeNamesDoNotCollide(front, [c], [d], back, i);
  }

  /** Under one prefix, two nodes get the same pod name exactly when their names have the same hash. */
  lemma PodsDifferIff(workflow: string, id: string, node: Node, id': string, node': Node)
    requires Prefix(workflow, node) == Prefix(workflow, node')
    requires PodNodeName(id, node) != workflow && PodNodeName(id', node') != workflow
    ensures PodName(workflow, id, node) == PodName(workflow, id', node')
       <==> Hash(Encode(PodNodeName(id, node))) == Hash(Encode(PodNodeName(id', node')))
  {
    hide Hash, Encode, Decimal, Prefix, PodNodeName;
    var h, h' := Hash(Encode(PodNodeName(id, node))), Hash(Encode(PodNodeName(id', node')));
    var p := Prefix(workflow, node) + "-";
    if p + Decimal(h) == p + Decimal(h') {
      assert Decimal(h) == (p + Decimal(h))[|p|..] == Decimal(h');
      DecimalInjective(h, h');
    }
  }

  /** So, under one prefix, two nodes whose names differ in one such character get different pods. */
  lemma PodsDiffer(workflow: string, id: string, node: Node, id': string, node': Node,
                   front: string, c: char, d: char, back: string)
    requires Prefix(workflow, node) == Prefix(workflow, node')
    requires PodNodeName(id, node) == front + [c] + back != workflow
    requires PodNodeName(id', node') == front + [d] + back != workflow
    requires c != d && |Utf8(c)| == |Utf8(d)| && c as int / 0x1000 == d as int / 0x1000
    ensures PodName(workflow, id, node) != PodName(workflow, id', node')
  {
    PodsDifferIff(workflow, id, node, id', node');
    OneCharacterDecides(front, c, d, back);
    hide Hash, Encode, PodName, Prefix, PodNodeName;
  }

  // ----- what a name is made of

  /** The number that decimal digits stand for. */
  function ValueOf(s: string): int {
    if s == "" then 0 else 10 * ValueOf(s[..|s| - 1]) + (s[|s| - 1] as int - '0' as int)
  }

  /** Decimal digits, most significant first, that stand for n, without leading zeros. */
  lemma {:induction false} DecimalMeans(n: nat)
    ensures ValueOf(Decimal(n)) == n && Decimal(n) != ""
    ensures forall i :: 0 <= i < |Decimal(n)| ==> '0' <= Decimal(n)[i] <= '9'
    ensures n > 0 ==> Decimal(n)[0] != '0'
  {
    var d := Decimal(n);
    if n < 10 {
      assert d[..|d| - 1] == "" && d[|d| - 1] == Digit(n);
    } else {
      DecimalMeans(n / 10);
      assert d[..|d| - 1] == Decimal(n / 10) && d[|d| - 1] == Digit(n % 10);
    }
  }

  predicate Continues(b: Byte) {
    0x80 <= b < 0xC0
  }

  /** UTF-8, section 3 of RFC 3629: the length depends on the range of the character, the lead byte tells
      the length, and the payload bits of all bytes, high ones first, are the character. */
  lemma Utf8Means(c: char)
    ensures var n, u := c as int, Utf8(c);
            && (n < 0x80 ==> u == [n])
            && (0x80 <= n < 0x800 ==>
                  && |u| == 2 && 0xC0 <= u[0] < 0xE0 && Continues(u[1])
                  && n == (u[0] as int - 0xC0) * 0x40 + (u[1] as int - 0x80))
            && (0x800 <= n < 0x1_0000 ==>
                  && |u| == 3 && 0xE0 <= u[0] < 0xF0 && Continues(u[1]) && Continues(u[2])
                  && n == (u[0] as int - 0xE0) * 0x1000 + (u[1] as int - 0x80) * 0x40 + (u[2] as int - 0x80))
            && (0x1_0000 <= n ==>
                  && |u| == 4 && 0xF0 <= u[0] < 0xF8 && Continues(u[1]) && Continues(u[2]) && Continues(u[3])
                  && n == (u[0] as int - 0xF0) * 0x4_0000 + (u[1] as int - 0x80) * 0x1000
                          + (u[2] as int - 0x80) * 0x40 + (u[3] as int - 0x80))
  {
    Digits(c as int);
    assert c as int / 0x1000 == c as int / 0x4_0000 * 0x40 + c as int / 0x1000 % 0x40;
  }

  /** The node name that is hashed: the first of name, id and node id that is not empty, and only for a
      container without its extension. */
  lemma PodNodeNameMeans(id: string, node: Node)
    ensures var raw := if node.name != "" then node.name else if node.id != "" then node.id else id;
            PodNodeName(id, node) == if node.nodeType == "Container" then WithoutExtension(raw) else raw
  {
  }

  /** A derived pod name: at most 242 characters of the workflow and template names, a dash, and the hash of
      the node name in decimal. So it begins with both names in full, and a dash, whenever they fit. */
  lemma PodNameMeans(workflow: string, id: string, node: Node) returns (prefix: string)
    requires PodNodeName(id, node) != workflow
    ensures var template := if node.templateName != "" then node.templateName else node.refTemplate;
            var names := if template == "" then workflow else workflow + "-" + template;
            var h := Hash(Encode(PodNodeName(id, node)));
            && PodName(workflow, id, node) == prefix + "-" + Decimal(h)
            && |prefix| <= 242 && prefix <= names && (prefix == names || |prefix| == 242)
            && (|names| <= 242 ==> names + "-" <= PodName(workflow, id, node))
  {
    prefix := Prefix(workflow, node);
    hide Hash, Encode, Decimal, PodNodeName;
  }

  /** The node that is the workflow itself has its name. */
  lemma WorkflowPod(workflow: string, id: string, node: Node)
    requires PodNodeName(id, node) == workflow
    ensures PodName(workflow, id, node) == workflow
  {
  }

  /** A derived pod name fits the resource name limit, unless it is the workflow name itself. */
  lemma PodNameFits(workflow: string, id: string, node: Node)
    ensures PodNodeName(id, node) == workflow || |PodName(workflow, id, node)| <= MAX_RESOURCE_NAME
  {
    var h := Hash(Encode(PodNodeName(id, node)));
    HashBounded(OFFSET_BASIS, Encode(PodNodeName(id, node)));
    assert Pow10(5) == 100000;
    assert Pow10(10) == 10000000000;
    DecimalLength(h, 10, 10000000000);
  }
}
