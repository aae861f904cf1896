/** DNS names: the dotted Go strings ZoneLint computes with, the label sequences
    they stand for, and the length-prefixed wire form (section 3.1 of RFC 1035).
    Presentation escapes are outside the model, so every dot separates labels. */
module Names {
  import opened Ordering
  import opened Bytes

  const DOT: byte := 46
  const STAR: byte := 42

  function LowerByte(b: byte): byte {
    if 65 <= b <= 90 then b + 32 else b
  }

  /** `strings.ToLower` on ASCII. */
  function Lower(s: Str): Str {
    seq(|s|, i requires 0 <= i < |s| => LowerByte(s[i]))
  }

  /** `dns.Fqdn`: append the final dot unless it is there. */
  function Fqdn(s: Str): Str {
    if s != [] && s[|s| - 1] == DOT then s else s + [DOT]
  }

  predicate IsFqdn(s: Str) {
    s != [] && s[|s| - 1] == DOT
  }

  /** The spelling under which ZoneLint files a name. */
  function Canon(s: Str): Str {
    Fqdn(Lower(s))
  }

  /** Both orders of folding occur in the code; they agree, and folding a
      folded name changes nothing. */
  lemma CanonIsStable(s: Str)
    ensures Lower(Fqdn(s)) == Canon(s)
    ensures Canon(Canon(s)) == Canon(s)
    ensures IsFqdn(Canon(s))
  {
    assert Lower(Lower(s)) == Lower(s);
    assert Lower(s + [DOT]) == Lower(s) + [DOT];
    assert Lower(Canon(s)) == Canon(s);
  }

  /** The same octet, or the two cases of one ASCII letter. */
  predicate SameLetter(x: byte, y: byte) {
    x == y || (65 <= x <= 90 && y == x + 32) || (65 <= y <= 90 && x == y + 32)
  }

  predicate SpelledAlike(a: Str, b: Str) {
    |a| == |b| && forall i :: 0 <= i < |a| ==> SameLetter(a[i], b[i])
  }

  predicate NoCapitals(s: Str) {
    forall i :: 0 <= i < |s| ==> !(65 <= s[i] <= 90)
  }

  lemma LowerIsCaseFolding(a: Str, b: Str)
    ensures Lower(a) == Lower(b) <==> SpelledAlike(a, b)
    ensures NoCapitals(Lower(a)) && SpelledAlike(Lower(a), a)
  {
    if Lower(a) == Lower(b) {
      assert |a| == |Lower(a)| == |b|;
      forall i | 0 <= i < |a| ensures SameLetter(a[i], b[i]) {
        assert Lower(a)[i] == LowerByte(a[i]) && Lower(b)[i] == LowerByte(b[i]);
      }
    }
  }

  lemma AlikeEndings(a: Str, b: Str)
    requires SpelledAlike(a, b)
    ensures IsFqdn(a) <==> IsFqdn(b)
    ensures SpelledAlike(a + [46], b + [46])
  {
  }

  lemma AlikeWithoutDots(a: Str, b: Str)
    requires SpelledAlike(a + [46], b + [46])
    ensures SpelledAlike(a, b)
  {
    forall i | 0 <= i < |a| ensures SameLetter(a[i], b[i]) {
      assert (a + [46])[i] == a[i] && (b + [46])[i] == b[i];
    }
  }

  /** Names are filed under one spelling, which has no capitals, exactly when they
      agree up to ASCII case and up to a final dot that one of them lacks. */
  lemma FiledTogetherIff(a: Str, b: Str)
    ensures Canon(a) == Canon(b)
            <==> || SpelledAlike(a, b)
                 || (!IsFqdn(a) && SpelledAlike(a + [46], b))
                 || (!IsFqdn(b) && SpelledAlike(a, b + [46]))
    ensures NoCapitals(Canon(a)) && SpelledAlike(Canon(a), if IsFqdn(a) then a else a + [46])
  {
    var x, y := if IsFqdn(a) then a else a + [46], if IsFqdn(b) then b else b + [46];
    CanonIsStable(a);
    CanonIsStable(b);
    assert x == Fqdn(a) && y == Fqdn(b);
    LowerIsCaseFolding(x, y);
    if SpelledAlike(a, b) {
      AlikeEndings(a, b);
    } else if !IsFqdn(a) && SpelledAlike(a + [46], b) {
      AlikeEndings(a + [46], b);
    } else if !IsFqdn(b) && SpelledAlike(a, b + [46]) {
      AlikeEndings(a, b + [46]);
    }
    if SpelledAlike(x, y) && !IsFqdn(a) && !IsFqdn(b) {
      AlikeWithoutDots(a, b);
    }
  }

  /** `strings.Split(s, ".")`. */
  function Split(s: Str): (r: seq<Str>)
    ensures r != []
  {
    if s == [] then [[]]
    else
      var r := Split(s[1..]);
      if s[0] == DOT then [[]] + r else [[s[0]] + r[0]] + r[1..]
  }

  /** `strings.Join(ls, ".")`. */
  function Join(ls: seq<Str>): Str {
    if ls == [] then []
    else if |ls| == 1 then ls[0]
    else ls[0] + [DOT] + Join(ls[1..])
  }

  lemma {:induction false} SplitAtDot(p: Str, q: Str)
    ensures Split(p + [DOT] + q) == Split(p) + Split(q)
  {
    var s := p + [DOT] + q;
    if p == [] {
      assert s[1..] == q;
    } else {
      assert s[1..] == p[1..] + [DOT] + q;
      SplitAtDot(p[1..], q);
    }
  }

  lemma {:induction false} SplitDotFree(s: Str)
    requires DOT !in s
    ensures Split(s) == [s]
  {
    if s != [] {
      SplitDotFree(s[1..]);
      assert s == [s[0]] + s[1..];
    }
  }

  ghost predicate DotFree(ls: seq<Str>) {
    forall i :: 0 <= i < |ls| ==> DOT !in ls[i]
  }

  lemma {:induction false} SplitJoin(ls: seq<Str>)
    requires ls != [] && DotFree(ls)
    ensures Split(Join(ls)) == ls
  {
    SplitDotFree(ls[0]);
    if |ls| > 1 {
      SplitJoin(ls[1..]);
      SplitAtDot(ls[0], Join(ls[1..]));
      assert ls == [ls[0]] + ls[1..];
    }
  }

  lemma {:induction false} JoinSplit(s: Str)
    ensures Join(Split(s)) == s
    ensures DotFree(Split(s))
  {
    if s != [] {
      JoinSplit(s[1..]);
      var r := Split(s[1..]);
      assert s == [s[0]] + s[1..];
      if s[0] == DOT {
        assert ([[]] + r)[1..] == r;
      } else {
        var h := [s[0]] + r[0];
        assert ([h] + r[1..])[1..] == r[1..];
      }
    }
  }

  lemma {:induction false} JoinAppend(a: seq<Str>, b: seq<Str>)
    requires a != [] && b != []
    ensures Join(a + b) == Join(a) + [DOT] + Join(b)
  {
    if |a| == 1 {
      assert (a + b)[1..] == b;
    } else {
      assert (a + b)[1..] == a[1..] + b;
      JoinAppend(a[1..], b);
    }
  }

  /** Labels as they appear in names: non-empty and without dots. */
  ghost predicate WellFormed(ls: seq<Str>) {
    forall i :: 0 <= i < |ls| ==> ls[i] != [] && DOT !in ls[i]
  }

  /** The dotted, fully qualified spelling of a label sequence. */
  function Dotted(ls: seq<Str>): Str {
    if ls == [] then [DOT] else Join(ls) + [DOT]
  }

  /** The labels of a fully qualified name; the root has none. */
  function LabelsOf(n: Str): seq<Str>
    requires IsFqdn(n)
  {
    if n == [DOT] then [] else Split(n[..|n| - 1])
  }

  lemma LabelsOfDotted(ls: seq<Str>)
    requires WellFormed(ls)
    ensures LabelsOf(Dotted(ls)) == ls
  {
    if ls != [] {
      SplitJoin(ls);
      assert Split([]) == [[]];
      assert Dotted(ls)[..|Dotted(ls)| - 1] == Join(ls);
    }
  }

  lemma DottedLabelsOf(n: Str)
    requires IsFqdn(n)
    ensures Dotted(LabelsOf(n)) == n
  {
    if n != [DOT] {
      JoinSplit(n[..|n| - 1]);
      assert n == n[..|n| - 1] + [DOT];
    }
  }

  // ----- "is in zone" -----

  function HasSuffix(s: Str, t: Str): bool {
    |s| >= |t| && s[|s| - |t|..] == t
  }

  /** The test ZoneLint writes as `n == z || strings.HasSuffix(n, "."+z)`. */
  function InZoneTest(n: Str, z: Str): bool {
    n == z || HasSuffix(n, [DOT] + z)
  }

  ghost predicate EndsWith(n: seq<Str>, z: seq<Str>) {
    |z| <= |n| && n[|n| - |z|..] == z
  }

  lemma SplitEndsEmpty(p: Str)
    ensures var r := Split(p + [DOT]); r[|r| - 1] == []
  {
    SplitAtDot(p, []);
    assert p + [DOT] + [] == p + [DOT];
    assert Split([]) == [[]];
  }

  lemma SuffixGivesLabels(n: seq<Str>, z: seq<Str>)
    requires WellFormed(n) && WellFormed(z)
    requires HasSuffix(Dotted(n), [DOT] + Dotted(z))
    ensures z != [] && EndsWith(n, z)
  {
    var s, t := Dotted(n), [DOT] + Dotted(z);
    assert |s| >= 2 && n != [];
    var p := s[..|s| - |t|];
    LabelsOfDotted(n);
    if z == [] {
      assert s[..|s| - 1] == p + [DOT] by { assert s == p + t; }
      SplitEndsEmpty(p);
    } else {
      assert s[..|s| - 1] == p + [DOT] + Join(z) by { assert s == p + t; }
      SplitAtDot(p, Join(z));
      SplitJoin(z);
      assert n == Split(p) + z;
    }
  }

  lemma LabelsGiveSuffix(n: seq<Str>, z: seq<Str>)
    requires z != [] && |z| < |n| && EndsWith(n, z)
    ensures HasSuffix(Dotted(n), [DOT] + Dotted(z))
  {
    var m := n[..|n| - |z|];
    assert n == m + z;
    JoinAppend(m, z);
    assert Dotted(n) == Join(m) + ([DOT] + Dotted(z));
  }

  /** The string test is the label-wise test, except that nothing but the root
      itself is found inside the root zone. */
  lemma InZoneTestIsLabelSuffix(n: seq<Str>, z: seq<Str>)
    requires WellFormed(n) && WellFormed(z)
    ensures InZoneTest(Dotted(n), Dotted(z)) <==> EndsWith(n, z) && (z != [] || n == [])
  {
    LabelsOfDotted(n);
    LabelsOfDotted(z);
    if HasSuffix(Dotted(n), [DOT] + Dotted(z)) {
      SuffixGivesLabels(n, z);
    }
    if EndsWith(n, z) && z != [] && |z| < |n| {
      LabelsGiveSuffix(n, z);
    }
  }

  // ----- wire form -----

  predicate IsLabel(l: Str) {
    0 < |l| <= 63
  }

  predicate AreLabels(ls: seq<Str>) {
    forall i :: 0 <= i < |ls| ==> IsLabel(ls[i])
  }

  function WireLength(ls: seq<Str>): nat {
    if ls == [] then 1 else 1 + |ls[0]| + WireLength(ls[1..])
  }

  /** Length-prefixed labels and the zero octet of the root. */
  function Wire(ls: seq<Str>): Str
    requires AreLabels(ls)
  {
    if ls == [] then [0] else [|ls[0]|] + ls[0] + Wire(ls[1..])
  }

  /** `uncompressedName`: the canonical wire form, or nil where the packer
      refuses the name (empty or long labels, or more than 255 octets). */
  function Pack(n: Str): Option<Str> {
    PackLabels(LabelsOf(Canon(n)))
  }

  function PackLabels(ls: seq<Str>): Option<Str> {
    if AreLabels(ls) && WireLength(ls) <= 255 then Some(Wire(ls)) else None
  }

  /** What `append(out, uncompressedName(n)...)` appends. */
  function PackOrNothing(n: Str): Str {
    match Pack(n)
    case Some(w) => w
    case None => []
  }

  predicate Packable(n: Str) {
    Pack(n).Some?
  }

  /** Reads one uncompressed name off the front of `b` (section 3.1 of RFC 1035). */
  function ParseName(b: Str): Option<(seq<Str>, Str)> {
    if b == [] then None
    else if b[0] == 0 then Some(([], b[1..]))
    else if b[0] > 63 || |b| < 1 + b[0] then None
    else
      match ParseName(b[1 + b[0]..])
      case None => None
      case Some((ls, rest)) => Some(([b[1..1 + b[0]]] + ls, rest))
  }

  lemma {:induction false} ParseWire(ls: seq<Str>, rest: Str)
    requires AreLabels(ls)
    ensures ParseName(Wire(ls) + rest) == Some((ls, rest))
  {
    var b := Wire(ls) + rest;
    if ls == [] {
      assert b[1..] == rest;
    } else {
      var l := ls[0];
      assert b[0] == |l| && b[1..1 + |l|] == l;
      assert b[1 + |l|..] == Wire(ls[1..]) + rest;
      ParseWire(ls[1..], rest);
      assert ls == [l] + ls[1..];
    }
  }

  lemma {:induction false} WireHasLength(ls: seq<Str>)
    requires AreLabels(ls)
    ensures |Wire(ls)| == WireLength(ls)
  {
    if ls != [] {
      WireHasLength(ls[1..]);
    }
  }

  /** What parses as a name is the wire form of its labels and the rest. */
  lemma {:induction false} ParsedIsWire(b: Str)
    requires ParseName(b).Some?
    ensures var (ls, rest) := ParseName(b).value; AreLabels(ls) && b == Wire(ls) + rest
  {
    if b[0] == 0 {
      assert b == [0] + b[1..];
    } else {
      var n := b[0];
      var l, tail := b[1..1 + n], b[1 + n..];
      ParsedIsWire(tail);
      var (ls, rest) := ParseName(tail).value;
      assert b == [n] + l + tail;
      WireOfNext(l, ls, rest);
    }
  }

  lemma WireOfNext(l: Str, ls: seq<Str>, rest: Str)
    requires IsLabel(l) && AreLabels(ls)
    ensures AreLabels([l] + ls) && Wire([l] + ls) + rest == [|l|] + l + (Wire(ls) + rest)
  {
    assert ([l] + ls)[1..] == ls;
  }

  /** A packed name can be read back, whatever follows it. */
  lemma PackRoundTrip(n: Str, rest: Str)
    requires Packable(n)
    ensures ParseName(PackOrNothing(n) + rest) == Some((LabelsOf(Canon(n)), rest))
    ensures Dotted(LabelsOf(Canon(n))) == Canon(n)
  {
    CanonIsStable(n);
    ParseWire(LabelsOf(Canon(n)), rest);
    DottedLabelsOf(Canon(n));
  }
}
