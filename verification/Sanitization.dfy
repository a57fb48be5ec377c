/** Stripping tags from strings, and sanitizing whole object graphs. */
module Sanitization {

  const MaxObjectDepth := 10
  const MaxObjectKeys := 50
  const MaxStringLength := 100000

  /* ---- strings ---- */

  /** Index of the first '>', or the length. */
  function FindClose(s: string): (k: nat)
    ensures k <= |s| && (k < |s| ==> s[k] == '>') && forall i | 0 <= i < k :: s[i] != '>'
  {
    if s == "" || s[0] == '>' then 0 else 1 + FindClose(s[1..])
  }

  /** Removes every match of `<[^>]*>`, scanning from the left. */
  function Strip(s: string): string {
    if s == "" then ""
    else if s[0] == '<' && FindClose(s) < |s| then Strip(s[FindClose(s) + 1..])
    else [s[0]] + Strip(s[1..])
  }

  /** No '<' anywhere before a '>'. */
  predicate TagFree(s: string) {
    forall i, j | 0 <= i < j < |s| :: !(s[i] == '<' && s[j] == '>')
  }

  predicate IsSpace(c: char) {
    var n := c as int;
    || 9 <= n <= 13 || n == 0x20 || n == 0xA0 || n == 0x1680 || 0x2000 <= n <= 0x200A
    || n == 0x2028 || n == 0x2029 || n == 0x202F || n == 0x205F || n == 0x3000 || n == 0xFEFF
  }

  function TrimStart(s: string): string {
    if s != "" && IsSpace(s[0]) then TrimStart(s[1..]) else s
  }

  function TrimEnd(s: string): string {
    if s != "" && IsSpace(s[|s| - 1]) then TrimEnd(s[..|s| - 1]) else s
  }

  function Trim(s: string): string {
    TrimEnd(TrimStart(s))
  }

  function Truncate(s: string): string {
    if |s| > MaxStringLength then s[..MaxStringLength] else s
  }

  function Sanitized(s: string): string {
    Truncate(Strip(Trim(s)))
  }

  method SanitizeString(value: string) returns (sanitized: string)
    ensures sanitized == Sanitized(value)
    ensures TagFree(sanitized) && |sanitized| <= MaxStringLength
  {
    sanitized := Trim(value);
    StripLeavesNoTag(sanitized);
    sanitized := Strip(sanitized);
    if |sanitized| > MaxStringLength {
      sanitized := sanitized[..MaxStringLength];
    }
  }

  predicate Within(s: string, t: string) {
    forall c | c in s :: c in t
  }

  lemma {:induction false} StripWithin(s: string)
    ensures Within(Strip(s), s)
  {
    if s == "" {
    } else if s[0] == '<' && FindClose(s) < |s| {
      StripWithin(s[FindClose(s) + 1..]);
      assert Within(s[FindClose(s) + 1..], s);
    } else {
      StripWithin(s[1..]);
      assert Within(s[1..], s);
    }
  }

  /** One pass leaves no '<' before a '>'. */
  lemma {:induction false} StripLeavesNoTag(s: string)
    ensures TagFree(Strip(s))
  {
    if s == "" {
    } else if s[0] == '<' && FindClose(s) < |s| {
      StripLeavesNoTag(s[FindClose(s) + 1..]);
    } else {
      StripLeavesNoTag(s[1..]);
      if s[0] == '<' {
        StripWithin(s[1..]);
        assert '>' !in s[1..];
      }
    }
  }

  /** Stripping changes nothing exactly on tag-free strings. */
  lemma {:induction false} StripFixes(s: string)
    ensures Strip(s) == s <==> TagFree(s)
  {
    if TagFree(s) {
      if s != "" {
        assert s[0] == '<' ==> FindClose(s) == |s|;
        assert TagFree(s[1..]);
        StripFixes(s[1..]);
        assert s == [s[0]] + s[1..];
      }
    } else {
      StripLeavesNoTag(s);
    }
  }

  /** Text before a tag is kept, the tag goes, and stripping goes on after it: with `StripFixes` this fixes every result. */
  lemma {:induction false} StripRemovesTag(before: string, inside: string, after: string)
    requires '<' !in before && '>' !in inside
    ensures Strip(before + "<" + inside + ">" + after) == before + Strip(after)
  {
    var s := before + "<" + inside + ">" + after;
    if before == "" {
      var k := FindClose(s);
      assert s[|inside| + 1] == '>';
      assert k == |inside| + 1;
      assert s[k + 1..] == after;
    } else {
      assert s[1..] == before[1..] + "<" + inside + ">" + after;
      StripRemovesTag(before[1..], inside, after);
    }
  }

  lemma StripIsIdempotent(s: string)
    ensures Strip(Strip(s)) == Strip(s)
  {
    StripLeavesNoTag(s);
    StripFixes(Strip(s));
  }

  lemma {:induction false} TrimStartShape(s: string)
    ensures |TrimStart(s)| <= |s| && TrimStart(s) == s[|s| - |TrimStart(s)|..]
    ensures TrimStart(s) != "" ==> !IsSpace(TrimStart(s)[0])
  {
    if s != "" && IsSpace(s[0]) { TrimStartShape(s[1..]); }
  }

  lemma {:induction false} TrimEndShape(s: string)
    ensures |TrimEnd(s)| <= |s| && TrimEnd(s) == s[..|TrimEnd(s)|]
    ensures TrimEnd(s) != "" ==> !IsSpace(TrimEnd(s)[|TrimEnd(s)| - 1])
  {
    if s != "" && IsSpace(s[|s| - 1]) { TrimEndShape(s[..|s| - 1]); }
  }

  lemma TrimIsIdempotent(s: string)
    ensures Trim(Trim(s)) == Trim(s)
  {
    var t := TrimStart(s);
    TrimStartShape(s);
    TrimEndShape(t);
    if Trim(s) != "" { assert Trim(s)[0] == t[0]; }
  }

  lemma TrimShape(s: string)
    ensures |Trim(s)| <= |s| && Within(Trim(s), s)
    ensures TagFree(s) ==> TagFree(Trim(s))
  {
    TrimStartShape(s);
    TrimEndShape(TrimStart(s));
    var d := |s| - |TrimStart(s)|;
    assert forall i | 0 <= i < |Trim(s)| :: Trim(s)[i] == s[d + i];
  }

  lemma SanitizedShape(s: string)
    ensures TagFree(Sanitized(s)) && |Sanitized(s)| <= MaxStringLength && Within(Sanitized(s), s)
  {
    TrimShape(s);
    StripLeavesNoTag(Trim(s));
    StripWithin(Trim(s));
  }

  /** Sanitizing a second time only trims. */
  lemma SecondPassTrims(s: string)
    ensures Sanitized(Sanitized(s)) == Trim(Sanitized(s))
  {
    SanitizedShape(s);
    TrimShape(Sanitized(s));
    StripFixes(Trim(Sanitized(s)));
  }

  /** So a third pass changes nothing more. */
  lemma ThreeTimesIsTwice(s: string)
    ensures Sanitized(Sanitized(Sanitized(s))) == Sanitized(Sanitized(s))
  {
    SecondPassTrims(s);
    SecondPassTrims(Sanitized(s));
    TrimIsIdempotent(Sanitized(s));
  }

  /** The white space and line terminators of ECMAScript. */
  lemma SpacesAre(c: char)
    ensures IsSpace(c) == (c as int in
      {0x9, 0xA, 0xB, 0xC, 0xD, 0x20, 0xA0, 0x1680, 0x2000, 0x2001, 0x2002, 0x2003, 0x2004, 0x2005, 0x2006, 0x2007, 0x2008, 0x2009,
       0x200A, 0x2028, 0x2029, 0x202F, 0x205F, 0x3000, 0xFEFF})
  {
  }

  lemma {:induction false} TrimStartDrops(s: string)
    ensures |TrimStart(s)| <= |s| && forall k | 0 <= k < |s| - |TrimStart(s)| :: IsSpace(s[k])
  {
    hide IsSpace;
    if s != "" && IsSpace(s[0]) { TrimStartDrops(s[1..]); }
  }

  lemma {:induction false} TrimEndDrops(s: string)
    ensures |TrimEnd(s)| <= |s| && forall k | |TrimEnd(s)| <= k < |s| :: IsSpace(s[k])
  {
    hide IsSpace;
    if s != "" && IsSpace(s[|s| - 1]) { TrimEndDrops(s[..|s| - 1]); }
  }

  /** Trimming drops exactly the white space at both ends: only white space goes, and none is left at an end. */
  lemma TrimIs(s: string) returns (i: nat, j: nat)
    ensures i <= j <= |s| && Trim(s) == s[i..j]
    ensures forall k | 0 <= k < i || j <= k < |s| :: IsSpace(s[k])
    ensures i < j ==> !IsSpace(s[i]) && !IsSpace(s[j - 1])
  {
    hide IsSpace;
    var t := TrimStart(s);
    TrimStartShape(s);
    TrimStartDrops(s);
    TrimEndShape(t);
    TrimEndDrops(t);
    i := |s| - |t|;
    j := i + |Trim(s)|;
  }

  /** Sanitizing is trimming, then stripping, then keeping at most the first 100000 characters. */
  lemma SanitizedIs(s: string)
    ensures |Strip(Trim(s))| <= 100000 ==> Sanitized(s) == Strip(Trim(s))
    ensures |Strip(Trim(s))| > 100000 ==> Sanitized(s) == Strip(Trim(s))[..100000]
  {
  }

  /* ---- which characters survive ---- */

  /** Position `i` lies in a tag: some '<' at or before it with no '>' in between, and some '>' at or after it. */
  predicate InTag(s: string, i: nat)
    requires i < |s|
  {
    && (exists a | 0 <= a <= i :: s[a] == '<' && '>' !in s[a..i])
    && '>' in s[i..]
  }

  /** The characters from position `i` on that lie outside every tag. */
  function Outside(s: string, i: nat): string
    requires i <= |s|
    decreases |s| - i
  {
    if i == |s| then "" else (if InTag(s, i) then "" else [s[i]]) + Outside(s, i + 1)
  }

  /** No tag that began before position `i` is still open there. */
  predicate Boundary(s: string, i: nat)
    requires i <= |s|
  {
    (forall a | 0 <= a < i && s[a] == '<' :: '>' in s[a..i]) || '>' !in s[i..]
  }

  lemma TagSpan(s: string, i: nat, k: nat)
    requires i <= k < |s| && s[i] == '<' && s[k] == '>' && '>' !in s[i..k]
    ensures forall j | i <= j <= k :: InTag(s, j)
  {
    forall j | i <= j <= k
      ensures InTag(s, j)
    {
      assert forall x | 0 <= x < j - i :: s[i..j][x] == s[i..k][x];
      assert s[j..][k - j] == '>';
    }
  }

  lemma {:induction false} SkipSpan(s: string, i: nat, k: nat)
    requires i <= k <= |s| && forall j | i <= j < k :: InTag(s, j)
    ensures Outside(s, i) == Outside(s, k)
    decreases k - i
  {
    hide InTag;
    if i < k { SkipSpan(s, i + 1, k); }
  }

  lemma BoundaryPlain(s: string, i: nat)
    requires i < |s| && Boundary(s, i) && (s[i] != '<' || '>' !in s[i..])
    ensures !InTag(s, i) && Boundary(s, i + 1)
  {
    if '>' in s[i..] {
      forall a | 0 <= a < i + 1 && s[a] == '<'
        ensures '>' in s[a..i + 1]
      {
        assert '>' in s[a..i];
        var x :| 0 <= x < i - a && s[a..i][x] == '>';
        assert s[a..i + 1][x] == '>';
      }
    } else {
      assert s[i + 1..] == s[i..][1..];
    }
  }

  lemma StripSkips(s: string, i: nat, k: nat)
    requires i <= k < |s| && s[i] == '<' && s[k] == '>' && '>' !in s[i..k]
    ensures Strip(s[i..]) == Strip(s[k + 1..])
  {
    var rest := s[i..];
    assert rest[k - i] == '>';
    assert forall j | 0 <= j < k - i :: rest[j] == s[i..k][j];
    assert FindClose(rest) == k - i;
    assert rest[k - i + 1..] == s[k + 1..];
  }

  lemma StripCopies(s: string, i: nat)
    requires i < |s| && (s[i] != '<' || '>' !in s[i..])
    ensures Strip(s[i..]) == [s[i]] + Strip(s[i + 1..])
  {
    assert s[i..][1..] == s[i + 1..];
  }

  /** Stripping keeps exactly the characters outside tags, in order. */
  lemma {:induction false} StripKeepsOutside(s: string, i: nat)
    requires i <= |s| && Boundary(s, i)
    ensures Strip(s[i..]) == Outside(s, i)
    decreases |s| - i
  {
    hide Boundary, InTag, Strip, FindClose;
    if i == |s| {
      assert s[i..] == "" && Strip("") == "" by { StripFixes(""); }
    } else if s[i] == '<' && '>' in s[i..] {
      var k := i + FindClose(s[i..]);
      assert s[i..k] == s[i..][..k - i];
      TagSpan(s, i, k);
      SkipSpan(s, i, k + 1);
      AfterClose(s, k);
      StripSkips(s, i, k);
      StripKeepsOutside(s, k + 1);
    } else {
      BoundaryPlain(s, i);
      StripCopies(s, i);
      StripKeepsOutside(s, i + 1);
    }
  }

  lemma AfterClose(s: string, k: nat)
    requires k < |s| && s[k] == '>'
    ensures Boundary(s, k + 1)
  {
    forall a | 0 <= a < k + 1 && s[a] == '<'
      ensures '>' in s[a..k + 1]
    {
      assert s[a..k + 1][k - a] == '>';
    }
  }

  /** How many characters before position `i` survive. */
  function SurvivorsBefore(s: string, i: nat): nat
    requires i <= |s|
  {
    if i == 0 then 0 else SurvivorsBefore(s, i - 1) + if InTag(s, i - 1) then 0 else 1
  }

  lemma {:induction false} OutsideSplits(s: string, i: nat)
    requires i <= |s|
    ensures |Outside(s, 0)| == SurvivorsBefore(s, i) + |Outside(s, i)|
    ensures Outside(s, 0)[SurvivorsBefore(s, i)..] == Outside(s, i)
  {
    hide InTag;
    if i > 0 {
      OutsideSplits(s, i - 1);
    }
  }

  /** The character at a surviving position `i` is number `SurvivorsBefore(s, i)` of the result. */
  lemma SurvivorAt(s: string, i: nat)
    requires i < |s| && !InTag(s, i)
    ensures SurvivorsBefore(s, i) < |Strip(s)| && Strip(s)[SurvivorsBefore(s, i)] == s[i]
    ensures |Strip(s)| == SurvivorsBefore(s, |s|)
  {
    hide InTag;
    StripIsOutside(s);
    OutsideSplits(s, i);
    OutsideSplits(s, |s|);
    assert Outside(s, 0)[SurvivorsBefore(s, i)..][0] == s[i];
  }

  lemma StripIsOutside(s: string)
    ensures Strip(s) == Outside(s, 0)
  {
    assert s[0..] == s;
    StripKeepsOutside(s, 0);
  }

  lemma {:induction false} FindSurvivor(s: string, n: nat, k: nat) returns (i: nat)
    requires n <= |s| && k < SurvivorsBefore(s, n)
    ensures i < n && !InTag(s, i) && SurvivorsBefore(s, i) == k
  {
    hide InTag;
    if SurvivorsBefore(s, n - 1) == k { i := n - 1; } else { i := FindSurvivor(s, n - 1, k); }
  }

  /** The result ends up with white space at its start: the first surviving character is white. */
  predicate WhiteStart(s: string) {
    exists i :: 0 <= i < |s| && !InTag(s, i) && IsSpace(s[i]) && SurvivorsBefore(s, i) == 0
  }

  /** Position `i` survives as the last character that fits. */
  predicate LastThatFits(s: string, i: nat)
    requires i < |s|
  {
    && !InTag(s, i) && SurvivorsBefore(s, i) < MaxStringLength
    && (SurvivorsBefore(s, i) == MaxStringLength - 1 || SurvivorsBefore(s, i) == SurvivorsBefore(s, |s|) - 1)
  }

  /** Or at its end: the last surviving character that fits is white. */
  predicate WhiteEnd(s: string) {
    exists i :: 0 <= i < |s| && IsSpace(s[i]) && LastThatFits(s, i)
  }

  predicate Flush(r: string) {
    r == "" || (!IsSpace(r[0]) && !IsSpace(r[|r| - 1]))
  }

  lemma TrimFixes(r: string)
    ensures Trim(r) == r <==> Flush(r)
  {
    TrimStartShape(r);
    TrimEndShape(TrimStart(r));
    if Trim(r) == r && r != "" { assert r[0] == TrimStart(r)[0]; }
  }

  lemma {:induction false} WhiteSurvivor(s: string, k: nat)
    ensures (exists i :: 0 <= i < |s| && !InTag(s, i) && IsSpace(s[i]) && SurvivorsBefore(s, i) == k) <==>
      (k < |Strip(s)| && IsSpace(Strip(s)[k]))
  {
    hide InTag, IsSpace;
    StripIsOutside(s);
    OutsideSplits(s, |s|);
    if i :| 0 <= i < |s| && !InTag(s, i) && IsSpace(s[i]) && SurvivorsBefore(s, i) == k {
      SurvivorAt(s, i);
    }
    if k < |Strip(s)| {
      var i := FindSurvivor(s, |s|, k);
      SurvivorAt(s, i);
    }
  }

  lemma WhiteEndIs(s: string)
    ensures WhiteEnd(s) <==> Truncate(Strip(s)) != "" && IsSpace(Truncate(Strip(s))[|Truncate(Strip(s))| - 1])
  {
    hide InTag, IsSpace;
    StripIsOutside(s);
    OutsideSplits(s, |s|);
    var last := |Truncate(Strip(s))| - 1;
    if last >= 0 { WhiteSurvivor(s, last); }
    if i :| 0 <= i < |s| && IsSpace(s[i]) && LastThatFits(s, i) {
      SurvivorAt(s, i);
      assert SurvivorsBefore(s, i) == last;
    }
  }

  /**
    When once is enough: sanitizing again changes nothing exactly when, in the trimmed input, neither the first character
    outside the tags nor the last one that fits is white space.
  */
  lemma OnceIsEnough(s: string)
    ensures Sanitized(Sanitized(s)) == Sanitized(s) <==> !WhiteStart(Trim(s)) && !WhiteEnd(Trim(s))
  {
    hide WhiteStart, WhiteEnd, Trim, Strip, IsSpace;
    SecondPassTrims(s);
    TrimFixes(Sanitized(s));
    WhiteStartIs(Trim(s));
    WhiteEndIs(Trim(s));
  }

  lemma WhiteStartIs(s: string)
    ensures WhiteStart(s) <==> Truncate(Strip(s)) != "" && IsSpace(Truncate(Strip(s))[0])
  {
    hide InTag, IsSpace, Strip, SurvivorsBefore;
    WhiteSurvivor(s, 0);
  }

  lemma {:induction false} SurvivorsOutside(s: string, i: nat, j: nat)
    requires i <= j <= |s|
    ensures (forall k | i <= k < j :: InTag(s, k)) ==> SurvivorsBefore(s, j) == SurvivorsBefore(s, i)
    ensures (forall k | i <= k < j :: !InTag(s, k)) ==> SurvivorsBefore(s, j) == SurvivorsBefore(s, i) + (j - i)
  {
    hide InTag;
    if i < j { SurvivorsOutside(s, i, j - 1); }
  }

  /** Inputs on which it is not: a tag at the end exposes white space before it. */
  lemma OnceIsNotEnough(before: string, space: char, inside: string)
    requires before != "" && !IsSpace(before[0]) && '<' !in before && '>' !in inside
    requires IsSpace(space) && |before| < MaxStringLength
    ensures var s := before + [space] + "<" + inside + ">";
      WhiteEnd(Trim(s)) && Sanitized(Sanitized(s)) != Sanitized(s)
  {
    hide IsSpace, InTag, Trim;
    var s, n := before + [space] + "<" + inside + ">", |before|;
    SpaceIsNoBracket(space);
    TrimFixes(s);
    assert s[n] == space && s[n + 1] == '<' && s[|s| - 1] == '>';
    assert s[n + 1..|s| - 1] == "<" + inside;
    TagSpan(s, n + 1, |s| - 1);
    forall k | 0 <= k <= n ensures !InTag(s, k) { NotInTag(s, k); }
    SurvivorsOutside(s, 0, n);
    SurvivorsOutside(s, 0, n + 1);
    SurvivorsOutside(s, n + 1, |s|);
    assert LastThatFits(s, n);
    OnceIsEnough(s);
  }

  lemma SpaceIsNoBracket(c: char)
    requires IsSpace(c)
    ensures c != '<' && c != '>'
    ensures !IsSpace('>')
  {
  }

  lemma NotInTag(s: string, k: nat)
    requires k < |s| && forall a | 0 <= a <= k :: s[a] != '<'
    ensures !InTag(s, k)
  {
  }

  /* ---- object graphs ---- */

  /** A value of the input graph; arrays and objects are references, so cycles and sharing are possible. */
  datatype Value = Null | Undefined | Bool(b: bool) | Number(n: real) | Text(s: string) | Array(id: nat) | Object(id: nat) | Other

  datatype Entry = Entry(key: string, value: Value)

  datatype Graph = Graph(arrays: nat -> seq<Value>, objects: nat -> seq<Entry>)

  /** The output is a tree; `source` remembers which input object a record copies and is not part of the output itself. */
  datatype Tree = Leaf(value: Value) | List(items: seq<Tree>) | Record(source: nat, fields: seq<Field>)

  datatype Field = Field(key: string, value: Tree)

  predicate Dangerous(key: string) {
    || key == "__proto__" || key == "constructor" || key == "prototype" || key == "__defineGetter__"
    || key == "__defineSetter__" || key == "__lookupGetter__" || key == "__lookupSetter__"
  }

  /** A key whose entry is kept. */
  predicate Kept(key: string) {
    !Dangerous(key) && '$' !in key && '.' !in key && Sanitized(key) != ""
  }

  /** Assignment to a property: a later entry with the same key replaces the value in place. */
  function Put(fields: seq<Field>, key: string, value: Tree): seq<Field> {
    if fields == [] then [Field(key, value)]
    else if fields[0].key == key then [Field(key, value)] + fields[1..]
    else [fields[0]] + Put(fields[1..], key, value)
  }

  function FirstItems<T>(xs: seq<T>): (ys: seq<T>)
    ensures |ys| <= MaxObjectKeys && ys <= xs
    ensures |ys| == MaxObjectKeys || ys == xs
  {
    if |xs| > MaxObjectKeys then xs[..MaxObjectKeys] else xs
  }

  /** The tree of a value and the objects visited by then. */
  function Clean(g: Graph, value: Value, depth: nat, visited: set<nat>): (Tree, set<nat>)
    requires depth <= MaxObjectDepth + 1
    decreases MaxObjectDepth + 1 - depth, 0
  {
    match value
    case Text(s) => (Leaf(Text(Sanitized(s))), visited)
    case Array(id) =>
      if depth > MaxObjectDepth then (Leaf(Undefined), visited)
      else
        var (items, after) := CleanItems(g, FirstItems(g.arrays(id)), depth + 1, visited);
        (List(items), after)
    case Object(id) =>
      if depth > MaxObjectDepth || id in visited then (Leaf(Undefined), visited)
      else
        var (fields, after) := CleanFields(g, FirstItems(g.objects(id)), depth + 1, visited + {id}, []);
        (Record(id, fields), after)
    case Other => (Leaf(Undefined), visited)
    case _ => (Leaf(value), visited)
  }

  function CleanItems(g: Graph, values: seq<Value>, depth: nat, visited: set<nat>): (seq<Tree>, set<nat>)
    requires depth <= MaxObjectDepth + 1
    decreases MaxObjectDepth + 1 - depth, |values|
  {
    if values == [] then ([], visited) else
    var (items, after) := CleanItems(g, values[..|values| - 1], depth, visited);
    var (item, last) := Clean(g, values[|values| - 1], depth, after);
    (items + [item], last)
  }

  function CleanFields(g: Graph, entries: seq<Entry>, depth: nat, visited: set<nat>, fields: seq<Field>): (seq<Field>, set<nat>)
    requires depth <= MaxObjectDepth + 1
    decreases MaxObjectDepth + 1 - depth, |entries|
  {
    if entries == [] then (fields, visited) else
    var (earlier, after) := CleanFields(g, entries[..|entries| - 1], depth, visited, fields);
    var last := entries[|entries| - 1];
    if !Kept(last.key) then (earlier, after)
    else
      var (tree, final) := Clean(g, last.value, depth, after);
      (Put(earlier, Sanitized(last.key), tree), final)
  }

  class Sanitizer {
    var visited: set<nat>

    constructor ()
      ensures visited == {}
    {
      visited := {};
    }

    method SanitizeObject(g: Graph, value: Value, depth: nat) returns (tree: Tree)
      requires depth <= MaxObjectDepth + 1
      modifies this
      ensures (tree, visited) == Clean(g, value, depth, old(visited))
      decreases MaxObjectDepth + 1 - depth
    {
      hide Sanitized, TagFree, Dangerous, Put;
      match value
      case Text(s) =>
        var sanitized := SanitizeString(s);
        return Leaf(Text(sanitized));
      case Array(id) =>
        if depth > MaxObjectDepth {
          return Leaf(Undefined);
        }
        var values := FirstItems(g.arrays(id));
        var items: seq<Tree> := [];
        for i := 0 to |values|
          invariant (items, visited) == CleanItems(g, values[..i], depth + 1, old(visited))
        {
          var item := SanitizeObject(g, values[i], depth + 1);
          assert values[..i + 1][..i] == values[..i];
          items := items + [item];
        }
        assert values[..|values|] == values;
        return List(items);
      case Object(id) =>
        if depth > MaxObjectDepth || id in visited {
          return Leaf(Undefined);
        }
        visited := visited + {id};
        ghost var start := visited;
        var entries := FirstItems(g.objects(id));
        var fields: seq<Field> := [];
        for i := 0 to |entries|
          invariant (fields, visited) == CleanFields(g, entries[..i], depth + 1, start, [])
        {
          assert entries[..i + 1][..i] == entries[..i];
          var key := entries[i].key;
          if Dangerous(key) || '$' in key || '.' in key {
            continue;
          }
          var safeKey := SanitizeString(key);
          if safeKey == "" {
            continue;
          }
          var item := SanitizeObject(g, entries[i].value, depth + 1);
          fields := Put(fields, safeKey, item);
        }
        assert entries[..|entries|] == entries;
        return Record(id, fields);
      case Other =>
        return Leaf(Undefined);
      case _ =>
        return Leaf(value);
    }
  }

  /* ---- what comes out ---- */

  predicate SafeKey(key: string) {
    key != "" && TagFree(key) && |key| <= MaxStringLength && '$' !in key && '.' !in key
  }

  predicate DistinctKeys(fields: seq<Field>) {
    forall i, j | 0 <= i < j < |fields| :: fields[i].key != fields[j].key
  }

  /**
    At most `height` levels of containers, each with at most 50 entries; strings and keys tag-free and bounded; keys
    non-empty, distinct, without '$' and '.'.
  */
  predicate Safe(tree: Tree, height: nat)
    decreases height
  {
    match tree
    case Leaf(v) => !v.Array? && !v.Object? && !v.Other? && (v.Text? ==> TagFree(v.s) && |v.s| <= MaxStringLength)
    case List(items) => height > 0 && |items| <= MaxObjectKeys && forall i | 0 <= i < |items| :: Safe(items[i], height - 1)
    case Record(_, fields) =>
      && height > 0 && |fields| <= MaxObjectKeys && DistinctKeys(fields)
      && forall i | 0 <= i < |fields| :: SafeKey(fields[i].key) && Safe(fields[i].value, height - 1)
  }

  lemma {:induction false} PutKeeps(fields: seq<Field>, key: string, value: Tree, height: nat)
    requires DistinctKeys(fields) && SafeKey(key) && Safe(value, height)
    requires forall i | 0 <= i < |fields| :: SafeKey(fields[i].key) && Safe(fields[i].value, height)
    ensures var puts := Put(fields, key, value);
      && DistinctKeys(puts) && |puts| <= |fields| + 1
      && (forall i | 0 <= i < |puts| :: SafeKey(puts[i].key) && Safe(puts[i].value, height))
      && (forall i | 0 <= i < |puts| :: puts[i].key == key || exists k | 0 <= k < |fields| :: puts[i].key == fields[k].key)
  {
    hide SafeKey, Safe;
    if fields != [] && fields[0].key != key {
      PutKeeps(fields[1..], key, value, height);
    }
  }

  lemma KeySafe(key: string)
    requires Kept(key)
    ensures SafeKey(Sanitized(key))
  {
    SanitizedShape(key);
  }

  /** Every value of every graph, cyclic ones included, becomes a safe tree of at most eleven levels. */
  lemma CleanIsSafe(g: Graph, value: Value, depth: nat, visited: set<nat>)
    requires depth <= MaxObjectDepth + 1
    ensures Safe(Clean(g, value, depth, visited).0, MaxObjectDepth + 1 - depth)
    decreases MaxObjectDepth + 1 - depth, 0
  {
    if value.Text? {
      SanitizedShape(value.s);
    } else if value.Array? && depth <= MaxObjectDepth {
      ItemsAreSafe(g, FirstItems(g.arrays(value.id)), depth + 1, visited);
    } else if value.Object? && depth <= MaxObjectDepth && value.id !in visited {
      FieldsAreSafe(g, FirstItems(g.objects(value.id)), depth + 1, visited + {value.id});
    }
  }

  lemma {:induction false} ItemsAreSafe(g: Graph, values: seq<Value>, depth: nat, visited: set<nat>)
    requires depth <= MaxObjectDepth + 1
    ensures var items := CleanItems(g, values, depth, visited).0;
      |items| == |values| && forall i | 0 <= i < |items| :: Safe(items[i], MaxObjectDepth + 1 - depth)
    decreases MaxObjectDepth + 1 - depth, |values|
  {
    hide Safe;
    if values != [] {
      ItemsAreSafe(g, values[..|values| - 1], depth, visited);
      CleanIsSafe(g, values[|values| - 1], depth, CleanItems(g, values[..|values| - 1], depth, visited).1);
    }
  }

  lemma {:induction false} FieldsAreSafe(g: Graph, entries: seq<Entry>, depth: nat, visited: set<nat>)
    requires depth <= MaxObjectDepth + 1
    ensures var fields := CleanFields(g, entries, depth, visited, []).0;
      && |fields| <= |entries| && DistinctKeys(fields)
      && forall i | 0 <= i < |fields| :: SafeKey(fields[i].key) && Safe(fields[i].value, MaxObjectDepth + 1 - depth)
    decreases MaxObjectDepth + 1 - depth, |entries|
  {
    hide Safe, SafeKey, Kept, Sanitized, DistinctKeys;
    if entries == [] {
      assert DistinctKeys([]) by { NoKeysDistinct(); }
    } else {
      var last := entries[|entries| - 1];
      FieldsAreSafe(g, entries[..|entries| - 1], depth, visited);
      var (earlier, after) := CleanFields(g, entries[..|entries| - 1], depth, visited, []);
      if Kept(last.key) {
        KeySafe(last.key);
        CleanIsSafe(g, last.value, depth, after);
        PutKeeps(earlier, Sanitized(last.key), Clean(g, last.value, depth, after).0, MaxObjectDepth + 1 - depth);
      }
    }
  }

  lemma NoKeysDistinct()
    ensures DistinctKeys([])
  {
  }

  /* ---- sharing ---- */

  /** How many records of the tree copy this input object. */
  function Copies(tree: Tree, origin: nat): nat {
    match tree
    case Leaf(_) => 0
    case List(items) => CopiesIn(items, origin)
    case Record(source, fields) => (if source == origin then 1 else 0) + CopiesOf(fields, origin)
  }

  function CopiesIn(items: seq<Tree>, origin: nat): nat {
    if items == [] then 0 else CopiesIn(items[..|items| - 1], origin) + Copies(items[|items| - 1], origin)
  }

  function CopiesOf(fields: seq<Field>, origin: nat): nat {
    if fields == [] then 0 else Copies(fields[0].value, origin) + CopiesOf(fields[1..], origin)
  }

  lemma {:induction false} PutCopies(fields: seq<Field>, key: string, value: Tree, origin: nat)
    ensures CopiesOf(Put(fields, key, value), origin) <= CopiesOf(fields, origin) + Copies(value, origin)
  {
    if fields != [] && fields[0].key != key {
      PutCopies(fields[1..], key, value, origin);
    }
  }

  function Seen(visited: set<nat>, origin: nat): nat {
    if origin in visited then 1 else 0
  }

  /** However often an object is referenced, at most one record copies it, and none if it was visited before; copying it visits it. */
  lemma EachObjectOnce(g: Graph, value: Value, depth: nat, visited: set<nat>, origin: nat)
    requires depth <= MaxObjectDepth + 1
    ensures var (tree, after) := Clean(g, value, depth, visited);
      visited <= after && Seen(visited, origin) + Copies(tree, origin) <= Seen(after, origin)
    decreases MaxObjectDepth + 1 - depth, 0
  {
    if value.Array? && depth <= MaxObjectDepth {
      EachObjectOnceIn(g, FirstItems(g.arrays(value.id)), depth + 1, visited, origin);
    } else if value.Object? && depth <= MaxObjectDepth && value.id !in visited {
      EachObjectOnceOf(g, FirstItems(g.objects(value.id)), depth + 1, visited + {value.id}, origin);
    }
  }

  lemma {:induction false} EachObjectOnceIn(g: Graph, values: seq<Value>, depth: nat, visited: set<nat>, origin: nat)
    requires depth <= MaxObjectDepth + 1
    ensures var (items, after) := CleanItems(g, values, depth, visited);
      visited <= after && Seen(visited, origin) + CopiesIn(items, origin) <= Seen(after, origin)
    decreases MaxObjectDepth + 1 - depth, |values|
  {
    hide Clean, Seen;
    if values != [] {
      var (items, after) := CleanItems(g, values[..|values| - 1], depth, visited);
      EachObjectOnceIn(g, values[..|values| - 1], depth, visited, origin);
      EachObjectOnce(g, values[|values| - 1], depth, after, origin);
      var item := Clean(g, values[|values| - 1], depth, after).0;
      assert (items + [item])[..|items|] == items;
    }
  }

  lemma {:induction false} EachObjectOnceOf(g: Graph, entries: seq<Entry>, depth: nat, visited: set<nat>, origin: nat)
    requires depth <= MaxObjectDepth + 1
    ensures var (fields, after) := CleanFields(g, entries, depth, visited, []);
      visited <= after && Seen(visited, origin) + CopiesOf(fields, origin) <= Seen(after, origin)
    decreases MaxObjectDepth + 1 - depth, |entries|
  {
    hide Clean, Kept, Sanitized, Put, Seen;
    if entries != [] {
      var last := entries[|entries| - 1];
      var (earlier, after) := CleanFields(g, entries[..|entries| - 1], depth, visited, []);
      EachObjectOnceOf(g, entries[..|entries| - 1], depth, visited, origin);
      if Kept(last.key) {
        EachObjectOnce(g, last.value, depth, after, origin);
        PutCopies(earlier, Sanitized(last.key), Clean(g, last.value, depth, after).0, origin);
      }
    }
  }

  /* ---- which keys come out ---- */

  lemma {:induction false} PutKeys(fields: seq<Field>, key: string, value: Tree, k: string)
    ensures (exists f | f in Put(fields, key, value) :: f.key == k) <==> k == key || exists f | f in fields :: f.key == k
  {
    if fields == [] {
      assert Put(fields, key, value)[0].key == key;
    } else if fields[0].key == key {
      assert Put(fields, key, value) == [Field(key, value)] + fields[1..];
      assert fields == [fields[0]] + fields[1..];
      assert fields[0] in fields && Field(key, value) in Put(fields, key, value);
    } else {
      PutKeys(fields[1..], key, value, k);
      assert fields == [fields[0]] + fields[1..];
      assert Put(fields, key, value) == [fields[0]] + Put(fields[1..], key, value);
    }
  }

  predicate HasKey(fields: seq<Field>, k: string) {
    exists f | f in fields :: f.key == k
  }

  predicate YieldsKey(entries: seq<Entry>, k: string) {
    exists e | e in entries :: Kept(e.key) && Sanitized(e.key) == k
  }

  lemma YieldsKeySnoc(entries: seq<Entry>, k: string)
    requires entries != []
    ensures YieldsKey(entries, k) <==>
      YieldsKey(entries[..|entries| - 1], k) || (Kept(entries[|entries| - 1].key) && Sanitized(entries[|entries| - 1].key) == k)
  {
    hide Kept, Sanitized;
    assert entries == entries[..|entries| - 1] + [entries[|entries| - 1]];
  }

  /** The keys of a copied object are exactly the sanitized forms of its kept keys. */
  lemma {:induction false} KeysAreSanitized(g: Graph, entries: seq<Entry>, depth: nat, visited: set<nat>, k: string)
    requires depth <= MaxObjectDepth + 1
    ensures HasKey(CleanFields(g, entries, depth, visited, []).0, k) <==> YieldsKey(entries, k)
    decreases |entries|
  {
    hide Kept, Sanitized, Clean, YieldsKey;
    if entries == [] {
      NothingYields(k);
    } else {
      var last := entries[|entries| - 1];
      var (earlier, after) := CleanFields(g, entries[..|entries| - 1], depth, visited, []);
      KeysAreSanitized(g, entries[..|entries| - 1], depth, visited, k);
      YieldsKeySnoc(entries, k);
      if Kept(last.key) {
        PutKeys(earlier, Sanitized(last.key), Clean(g, last.value, depth, after).0, k);
      }
    }
  }

  lemma NothingYields(k: string)
    ensures !YieldsKey([], k)
  {
  }

  /** A key that passes the check as given and is dangerous once sanitized. */
  predicate Unmasked(key: string) {
    Kept(key) && Dangerous(Sanitized(key))
  }

  /** Dangerous keys are looked for before sanitizing, so an object's copy has one exactly when some key is unmasked by sanitizing. */
  lemma DangerousKeysAre(g: Graph, entries: seq<Entry>, depth: nat, visited: set<nat>)
    requires depth <= MaxObjectDepth + 1
    ensures (exists f | f in CleanFields(g, entries, depth, visited, []).0 :: Dangerous(f.key)) <==> exists e | e in entries :: Unmasked(e.key)
  {
    hide CleanFields, Kept, Sanitized, Dangerous;
    var fields := CleanFields(g, entries, depth, visited, []).0;
    if f :| f in fields && Dangerous(f.key) {
      KeysAreSanitized(g, entries, depth, visited, f.key);
    }
    if e :| e in entries && Unmasked(e.key) {
      KeysAreSanitized(g, entries, depth, visited, Sanitized(e.key));
    }
  }

  /** Sanitizing unmasks a key only by changing it: without tags and outer white space the check is sound. */
  lemma UnmaskedIsChanged(key: string)
    ensures Unmasked(key) ==> Sanitized(key) != key
    ensures Flush(key) && TagFree(key) && |key| <= MaxStringLength ==> !Unmasked(key)
  {
    hide IsSpace;
    TrimFixes(key);
    StripFixes(key);
  }

  /** Lower-case letters, capitals and underscores only. */
  predicate Plain(name: string) {
    0 < |name| <= 20 && forall c | c in name :: 'a' <= c <= 'z' || 'A' <= c <= 'Z' || c == '_'
  }

  lemma DangerousIsPlain(name: string)
    requires Dangerous(name)
    ensures Plain(name)
  {
  }

  lemma DangerousShape(name: string)
    requires Dangerous(name)
    ensures 0 < |name| <= 20 && Flush(name)
    ensures name[0] != '<' && '<' !in name && '$' !in name && '.' !in name
  {
    hide Dangerous;
    DangerousIsPlain(name);
    assert name[0] in name && name[|name| - 1] in name;
  }

  /** And every dangerous key has such forms: a tag in front of it is enough. */
  lemma TagUnmasks(inside: string, name: string)
    requires Dangerous(name) && '>' !in inside && '$' !in inside && '.' !in inside
    ensures Unmasked("<" + inside + ">" + name)
  {
    hide Dangerous, Sanitized, Flush;
    var key := "<" + inside + ">" + name;
    DangerousShape(name);
    TaggedSanitizes(inside, name);
    assert key[0] == '<';
    if Dangerous(key) { DangerousShape(key); }
  }

  lemma TaggedSanitizes(inside: string, name: string)
    requires name != "" && Flush(name) && '<' !in name && |name| <= MaxStringLength && '>' !in inside
    ensures Sanitized("<" + inside + ">" + name) == name
  {
    hide IsSpace, TagFree, Trim, Strip;
    var key := "<" + inside + ">" + name;
    OpeningIsNoSpace();
    TaggedIsFlush(key, name);
    TrimFixes(key);
    assert key == "" + "<" + inside + ">" + name;
    StripRemovesTag("", inside, name);
    NoOpeningIsTagFree(name);
    StripFixes(name);
  }

  lemma OpeningIsNoSpace()
    ensures !IsSpace('<')
  {
  }

  lemma NoOpeningIsTagFree(s: string)
    requires '<' !in s
    ensures TagFree(s)
  {
  }

  lemma TaggedIsFlush(key: string, name: string)
    requires name != "" && Flush(name) && |name| < |key| && key[0] == '<' && !IsSpace('<') && key[|key| - |name|..] == name
    ensures Flush(key)
  {
    assert key[|key| - 1] == name[|name| - 1];
  }

  /* ---- what a copy holds ---- */

  /** The value of a property. */
  function Get(fields: seq<Field>, key: string): Tree {
    if fields == [] then Leaf(Undefined) else if fields[0].key == key then fields[0].value else Get(fields[1..], key)
  }

  lemma {:induction false} PutGets(fields: seq<Field>, key: string, value: Tree, k: string)
    ensures Get(Put(fields, key, value), k) == if k == key then value else Get(fields, k)
  {
    if fields != [] && fields[0].key != key { PutGets(fields[1..], key, value, k); }
  }

  /** What is not a container: strings are sanitized, other primitives kept, anything else dropped, at any depth. */
  lemma LeavesAre(g: Graph, value: Value, depth: nat, visited: set<nat>)
    requires depth <= MaxObjectDepth + 1 && !value.Array? && !value.Object?
    ensures Clean(g, value, depth, visited) ==
      (match value
       case Text(s) => (Leaf(Text(Sanitized(s))), visited)
       case Other => (Leaf(Undefined), visited)
       case Null => (Leaf(Null), visited)
       case Undefined => (Leaf(Undefined), visited)
       case Bool(b) => (Leaf(Bool(b)), visited)
       case Number(n) => (Leaf(Number(n)), visited))
  {
  }

  /** A container below depth 10 is dropped, and so is an object seen before; nothing else is. */
  lemma ContainersDropped(g: Graph, value: Value, depth: nat, visited: set<nat>)
    requires depth <= MaxObjectDepth + 1 && (value.Array? || value.Object?)
    ensures Clean(g, value, depth, visited).0.Leaf? <==> depth > 10 || (value.Object? && value.id in visited)
    ensures Clean(g, value, depth, visited).0.Leaf? ==> Clean(g, value, depth, visited) == (Leaf(Undefined), visited)
  {
  }

  /** The first 50 items of an array are copied in order, each one level deeper and knowing what those before it visited. */
  lemma ArrayCopies(g: Graph, id: nat, depth: nat, visited: set<nat>) returns (known: seq<set<nat>>)
    requires depth <= 10
    ensures var (tree, after) := Clean(g, Array(id), depth, visited);
      && tree.List? && |tree.items| == (if |g.arrays(id)| > 50 then 50 else |g.arrays(id)|)
      && |known| == |tree.items| + 1 && known[0] == visited && known[|tree.items|] == after
      && forall k | 0 <= k < |tree.items| :: (tree.items[k], known[k + 1]) == Clean(g, g.arrays(id)[k], depth + 1, known[k])
  {
    hide Clean;
    var values := FirstItems(g.arrays(id));
    known := ItemsCopied(g, values, depth + 1, visited);
    ArrayIs(g, id, depth, visited);
  }

  lemma ArrayIs(g: Graph, id: nat, depth: nat, visited: set<nat>)
    requires depth <= 10
    ensures var (items, after) := CleanItems(g, FirstItems(g.arrays(id)), depth + 1, visited);
      Clean(g, Array(id), depth, visited) == (List(items), after)
  {
  }

  lemma {:induction false} ItemsCopied(g: Graph, values: seq<Value>, depth: nat, visited: set<nat>) returns (known: seq<set<nat>>)
    requires depth <= MaxObjectDepth + 1
    ensures var (items, after) := CleanItems(g, values, depth, visited);
      && |items| == |values| && |known| == |values| + 1 && known[0] == visited && known[|values|] == after
      && forall k | 0 <= k < |values| :: (items[k], known[k + 1]) == Clean(g, values[k], depth, known[k])
    decreases |values|
  {
    hide Clean;
    if values == [] {
      known := [visited];
    } else {
      var n := |values| - 1;
      var before := ItemsCopied(g, values[..n], depth, visited);
      var (item, last) := Clean(g, values[n], depth, before[n]);
      known := before + [last];
    }
  }

  /** Kept keys: not one of the seven dangerous names, no '$' and no '.', and something left after sanitizing. */
  lemma KeptIs(key: string)
    ensures Kept(key) <==>
      && key !in {"__proto__", "constructor", "prototype", "__defineGetter__", "__defineSetter__", "__lookupGetter__", "__lookupSetter__"}
      && '$' !in key && '.' !in key && Sanitized(key) != ""
  {
    hide Sanitized;
  }

  /**
    Of the first 50 entries of an object the kept ones are copied in order, one level deeper, and each is the value of its
    sanitized key unless a later one has the same.
  */
  lemma ObjectCopies(g: Graph, id: nat, depth: nat, visited: set<nat>) returns (known: seq<set<nat>>, trees: seq<Tree>)
    requires depth <= 10 && id !in visited
    ensures var (tree, after) := Clean(g, Object(id), depth, visited);
      var entries := if |g.objects(id)| > 50 then g.objects(id)[..50] else g.objects(id);
      && tree.Record? && tree.source == id
      && |trees| == |entries| && |known| == |entries| + 1 && known[0] == visited + {id} && known[|entries|] == after
      && EntriesCopied(g, entries, depth + 1, tree.fields, known, trees)
  {
    hide Clean, EntriesCopied;
    known, trees := FieldsCopied(g, FirstItems(g.objects(id)), depth + 1, visited + {id});
    ObjectIs(g, id, depth, visited);
  }

  predicate EntriesCopied(g: Graph, entries: seq<Entry>, depth: nat, fields: seq<Field>, known: seq<set<nat>>, trees: seq<Tree>)
    requires depth <= MaxObjectDepth + 1 && |trees| == |entries| && |known| == |entries| + 1
  {
    && (forall k | 0 <= k < |entries| && Kept(entries[k].key) :: (trees[k], known[k + 1]) == Clean(g, entries[k].value, depth, known[k]))
    && (forall k | 0 <= k < |entries| && !Kept(entries[k].key) :: known[k + 1] == known[k])
    && (forall k | 0 <= k < |entries| && LastOfKey(entries, k) :: Get(fields, Sanitized(entries[k].key)) == trees[k])
  }

  /** A kept entry with no later kept entry of the same sanitized key. */
  predicate LastOfKey(entries: seq<Entry>, k: nat)
    requires k < |entries|
  {
    Kept(entries[k].key) &&
    forall j | k < j < |entries| && Kept(entries[j].key) :: Sanitized(entries[j].key) != Sanitized(entries[k].key)
  }

  lemma ObjectIs(g: Graph, id: nat, depth: nat, visited: set<nat>)
    requires depth <= 10 && id !in visited
    ensures var (fields, after) := CleanFields(g, FirstItems(g.objects(id)), depth + 1, visited + {id}, []);
      Clean(g, Object(id), depth, visited) == (Record(id, fields), after)
  {
  }

  lemma {:induction false} FieldsCopied(g: Graph, entries: seq<Entry>, depth: nat, visited: set<nat>) returns (known: seq<set<nat>>, trees: seq<Tree>)
    requires depth <= MaxObjectDepth + 1
    ensures var (fields, after) := CleanFields(g, entries, depth, visited, []);
      && |trees| == |entries| && |known| == |entries| + 1 && known[0] == visited && known[|entries|] == after
      && EntriesCopied(g, entries, depth, fields, known, trees)
    decreases |entries|
  {
    hide Clean, Kept, Sanitized, Get, Put;
    if entries == [] {
      known, trees := [visited], [];
    } else {
      var n := |entries| - 1;
      var front, last := entries[..n], entries[n];
      var earlier := CleanFields(g, front, depth, visited, []).0;
      var before, copies := FieldsCopied(g, front, depth, visited);
      var (tree, after) := if Kept(last.key) then Clean(g, last.value, depth, before[n]) else (Leaf(Undefined), before[n]);
      known, trees := before + [after], copies + [tree];
      forall k | 0 <= k < n && LastOfKey(entries, k)
        ensures LastOfKey(front, k) && Get(CleanFields(g, entries, depth, visited, []).0, Sanitized(entries[k].key)) == trees[k]
      {
        assert LastOfKey(front, k);
        if Kept(last.key) { PutGets(earlier, Sanitized(last.key), tree, Sanitized(entries[k].key)); }
      }
      if Kept(last.key) { PutGets(earlier, Sanitized(last.key), tree, Sanitized(last.key)); }
    }
  }
}
