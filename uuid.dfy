/** UUID checking and generation (src/lib/utils/uuid.ts): the validator of
    RFC 4122 strings and the template-filling fallback generator for version 4,
    random UUIDs (RFC 4122 section 4.4). */
module Uuid {

  import opened Basics
  import opened Strings

  /** `[0-9a-f]` under the `i` flag. */
  predicate IsHex(c: char) {
    '0' <= c <= '9' || 'a' <= c <= 'f' || 'A' <= c <= 'F'
  }

  /** `[0-9a-f]{n}` under the `i` flag, on the whole of `s`. */
  predicate HexRun(s: string, n: nat) {
    |s| == n && forall i :: 0 <= i < |s| ==> IsHex(s[i])
  }

  /** `[1-5]`: the version nibble (RFC 4122 section 4.1.3). */
  predicate IsVersion(c: char) {
    '1' <= c <= '5'
  }

  /** `[89ab]` under the `i` flag: the variant nibble (RFC 4122 section 4.1.1). */
  predicate IsVariant(c: char) {
    c == '8' || c == '9' || c == 'a' || c == 'b' || c == 'A' || c == 'B'
  }

  /** `isValidUUID(uuid)`: the anchored pattern
      8 hex, `-`, 4 hex, `-`, version + 3 hex, `-`, variant + 3 hex, `-`, 12 hex. */
  predicate IsValidUUID(u: string) {
    && |u| == 36
    && HexRun(u[0..8], 8) && u[8] == '-'
    && HexRun(u[9..13], 4) && u[13] == '-'
    && IsVersion(u[14]) && HexRun(u[15..18], 3) && u[18] == '-'
    && IsVariant(u[19]) && HexRun(u[20..23], 3) && u[23] == '-'
    && HexRun(u[24..36], 12)
  }

  /** The five groups a valid UUID splits into at `-`. */
  function Groups(u: string): seq<string>
    requires |u| == 36
  {
    [u[0..8], u[9..13], u[14..18], u[19..23], u[24..36]]
  }

  /** A valid UUID is five hex groups of lengths 8-4-4-4-12 joined by `-`. */
  lemma ValidUUIDGroups(u: string)
    requires IsValidUUID(u)
    ensures Split(u, '-') == Groups(u)
    ensures forall k :: 0 <= k < 5 ==> HexRun(Groups(u)[k], [8, 4, 4, 4, 12][k])
  {
    var g := Groups(u);
    assert u == Join(g, "-") by {
      assert Join(g[4..], "-") == g[4];
      assert Join(g[3..], "-") == g[3] + "-" + g[4];
      assert Join(g[2..], "-") == g[2] + "-" + g[3] + "-" + g[4];
      assert Join(g[1..], "-") == g[1] + "-" + g[2] + "-" + g[3] + "-" + g[4];
    }
    forall k | 0 <= k < 5 ensures '-' !in g[k] {
      forall i | 0 <= i < |g[k]| ensures g[k][i] != '-' {
        assert IsHex(g[k][i]) by {
          if k == 2 && i == 0 { assert IsVersion(g[k][i]); }
          if k == 3 && i == 0 { assert IsVariant(g[k][i]); }
        }
      }
    }
    SplitJoin(g, '-');
  }

  /** The pattern does not depend on letter case. */
  lemma ValidUUIDIgnoresCase(u: string)
    ensures IsValidUUID(Lower(u)) <==> IsValidUUID(u)
  {
    var l := Lower(u);
    assert forall i :: 0 <= i < |u| ==> (IsHex(l[i]) <==> IsHex(u[i]));
    assert forall i :: 0 <= i < |u| ==> (IsVariant(l[i]) <==> IsVariant(u[i]));
    assert forall i :: 0 <= i < |u| ==> (IsVersion(l[i]) <==> IsVersion(u[i]));
    assert forall i :: 0 <= i < |u| ==> (l[i] == '-' <==> u[i] == '-');
    if |u| == 36 {
      forall a, b | 0 <= a <= b <= 36 ensures (forall i :: 0 <= i < b - a ==> IsHex(l[a..b][i]))
                                              <==> (forall i :: 0 <= i < b - a ==> IsHex(u[a..b][i])) {
        assert forall i :: 0 <= i < b - a ==> l[a..b][i] == l[a + i] && u[a..b][i] == u[a + i];
      }
    }
  }

  // ---- the fallback generator ----

  /** `(Math.random() * 16) | 0`: a value in 0..15. */
  type Nibble = x: int | 0 <= x < 16

  const HexDigits := "0123456789abcdef"

  /** `v.toString(16)` for a nibble: one lower-case hex digit. */
  function HexDigit(v: Nibble): (c: char)
    ensures IsHex(c) && !('A' <= c <= 'F')
  {
    HexDigits[v]
  }

  /** `(r & 0x3) | 0x8`. */
  function VariantNibble(r: Nibble): (v: Nibble)
    ensures 8 <= v <= 11
    ensures v == r % 4 + 8
  {
    (((r as bv8) & 3) | 8) as int
  }

  const Template := "xxxxxxxx-xxxx-4xxx-yxxx-xxxxxxxxxxxx"

  /** The number of `x` and `y` placeholders in `t`. */
  function Placeholders(t: string): nat
    decreases |t|
  {
    if t == [] then 0 else (if t[0] == 'x' || t[0] == 'y' then 1 else 0) + Placeholders(t[1..])
  }

  /** `t.replace(/[xy]/g, ...)`, drawing one nibble per placeholder in order. */
  function Fill(t: string, rs: seq<Nibble>): (r: string)
    requires |rs| == Placeholders(t)
    ensures |r| == |t|
    decreases |t|
  {
    if t == [] then ""
    else if t[0] == 'x' then [HexDigit(rs[0])] + Fill(t[1..], rs[1..])
    else if t[0] == 'y' then [HexDigit(VariantNibble(rs[0]))] + Fill(t[1..], rs[1..])
    else [t[0]] + Fill(t[1..], rs)
  }

  /** Per position: an `x` becomes a lower-case hex digit, a `y` one of 8, 9, a, b,
      and every other character of the template is kept. */
  lemma FillShape(t: string, rs: seq<Nibble>)
    requires |rs| == Placeholders(t)
    ensures forall i :: 0 <= i < |t| && t[i] == 'x' ==> IsHex(Fill(t, rs)[i]) && !('A' <= Fill(t, rs)[i] <= 'F')
    ensures forall i :: 0 <= i < |t| && t[i] == 'y' ==> Fill(t, rs)[i] in "89ab"
    ensures forall i :: 0 <= i < |t| && t[i] != 'x' && t[i] != 'y' ==> Fill(t, rs)[i] == t[i]
  {
    FillHexAtX(t, rs);
    FillVariantAtY(t, rs);
    FillKeepsOthers(t, rs);
  }

  /** The filled string past its first character is the fill of the template's rest. */
  lemma FillTail(t: string, rs: seq<Nibble>)
    requires |rs| == Placeholders(t) && t != []
    ensures var rest := if t[0] == 'x' || t[0] == 'y' then rs[1..] else rs;
      |rest| == Placeholders(t[1..]) && Fill(t, rs)[1..] == Fill(t[1..], rest)
  {
  }

  lemma {:induction false} FillHexAtX(t: string, rs: seq<Nibble>)
    requires |rs| == Placeholders(t)
    ensures forall i :: 0 <= i < |t| && t[i] == 'x' ==> IsHex(Fill(t, rs)[i]) && !('A' <= Fill(t, rs)[i] <= 'F')
    decreases |t|
  {
    if t != [] {
      var rest := if t[0] == 'x' || t[0] == 'y' then rs[1..] else rs;
      FillTail(t, rs);
      FillHexAtX(t[1..], rest);
      var f := Fill(t, rs);
      forall i | 1 <= i < |t| ensures f[i] == Fill(t[1..], rest)[i - 1] && t[i] == t[1..][i - 1] {
      }
    }
  }

  lemma {:induction false} FillVariantAtY(t: string, rs: seq<Nibble>)
    requires |rs| == Placeholders(t)
    ensures forall i :: 0 <= i < |t| && t[i] == 'y' ==> Fill(t, rs)[i] in "89ab"
    decreases |t|
  {
    if t != [] {
      var rest := if t[0] == 'x' || t[0] == 'y' then rs[1..] else rs;
      FillTail(t, rs);
      FillVariantAtY(t[1..], rest);
      var f := Fill(t, rs);
      forall i | 1 <= i < |t| ensures f[i] == Fill(t[1..], rest)[i - 1] && t[i] == t[1..][i - 1] {
      }
      if t[0] == 'y' {
        VariantDigit(rs[0]);
      }
    }
  }

  /** A variant nibble prints as 8, 9, a or b. */
  lemma VariantDigit(r: Nibble)
    ensures HexDigit(VariantNibble(r)) in "89ab"
  {
    var v := VariantNibble(r);
    assert HexDigits[8] == '8' && HexDigits[9] == '9' && HexDigits[10] == 'a' && HexDigits[11] == 'b';
    assert HexDigit(v) == HexDigits[v];
  }

  lemma {:induction false} FillKeepsOthers(t: string, rs: seq<Nibble>)
    requires |rs| == Placeholders(t)
    ensures forall i :: 0 <= i < |t| && t[i] != 'x' && t[i] != 'y' ==> Fill(t, rs)[i] == t[i]
    decreases |t|
  {
    if t != [] {
      var rest := if t[0] == 'x' || t[0] == 'y' then rs[1..] else rs;
      FillTail(t, rs);
      FillKeepsOthers(t[1..], rest);
      var f := Fill(t, rs);
      forall i | 1 <= i < |t| ensures f[i] == Fill(t[1..], rest)[i - 1] && t[i] == t[1..][i - 1] {
      }
    }
  }

  // ---- counting the template's placeholders ----

  lemma {:induction false} PlaceholdersAppend(a: string, b: string)
    ensures Placeholders(a + b) == Placeholders(a) + Placeholders(b)
    decreases |a|
  {
    if a != [] {
      assert (a + b)[1..] == a[1..] + b;
      PlaceholdersAppend(a[1..], b);
    } else { assert a + b == b; }
  }
  lemma {:induction false} AllPlaceholders(s: string)
    requires forall i :: 0 <= i < |s| ==> s[i] == 'x'
    ensures Placeholders(s) == |s|
    decreases |s|
  {
    if s != [] { AllPlaceholders(s[1..]); }
  }
  /** The template, position by position. */
  lemma TemplateShape()
    ensures |Template| == 36
    ensures forall i :: 0 <= i < 36 && i != 8 && i != 13 && i != 14 && i != 18 && i != 19 && i != 23 ==> Template[i] == 'x'
    ensures Template[8] == '-' && Template[13] == '-' && Template[18] == '-' && Template[23] == '-'
    ensures Template[14] == '4' && Template[19] == 'y'
  {
  }
  lemma {:induction false} PlaceholdersSlice(t: string, a: nat, b: nat, c: nat)
    requires a <= b <= c <= |t|
    ensures Placeholders(t[a..c]) == Placeholders(t[a..b]) + Placeholders(t[b..c])
  {
    assert t[a..c] == t[a..b] + t[b..c];
    PlaceholdersAppend(t[a..b], t[b..c]);
  }
  lemma {:induction false} OneChar(t: string, a: nat)
    requires a < |t|
    ensures Placeholders(t[a..a+1]) == if t[a] == 'x' || t[a] == 'y' then 1 else 0
  {
    assert t[a..a+1][1..] == [];
  }
  lemma {:induction false} XRun(t: string, a: nat, b: nat)
    requires a <= b <= |t|
    requires forall i :: a <= i < b ==> t[i] == 'x'
    ensures Placeholders(t[a..b]) == b - a
  {
    AllPlaceholders(t[a..b]);
  }
  lemma {:induction false} CountHead(t: string)
    requires |t| == 36
    requires forall i :: 0 <= i < 13 && i != 8 ==> t[i] == 'x'
    requires t[8] == '-' && t[13] == '-'
    ensures Placeholders(t[0..14]) == 12
  {
    XRun(t, 0, 8); OneChar(t, 8); XRun(t, 9, 13); OneChar(t, 13);
    PlaceholdersSlice(t, 9, 13, 14);
    PlaceholdersSlice(t, 8, 9, 14);
    PlaceholdersSlice(t, 0, 8, 14);
  }
  lemma {:induction false} CountTail(t: string)
    requires |t| == 36
    requires forall i :: 15 <= i < 36 && i != 18 && i != 19 && i != 23 ==> t[i] == 'x'
    requires t[14] == '4' && t[18] == '-' && t[19] == 'y' && t[23] == '-'
    ensures Placeholders(t[14..36]) == 19
  {
    CountMiddle(t);
    CountEnd(t);
    PlaceholdersSlice(t, 14, 20, 36);
  }
  lemma {:induction false} CountMiddle(t: string)
    requires |t| == 36
    requires forall i :: 15 <= i < 18 ==> t[i] == 'x'
    requires t[14] == '4' && t[18] == '-' && t[19] == 'y'
    ensures Placeholders(t[14..20]) == 4
  {
    OneChar(t, 14); XRun(t, 15, 18); OneChar(t, 18); OneChar(t, 19);
    PlaceholdersSlice(t, 18, 19, 20);
    PlaceholdersSlice(t, 15, 18, 20);
    PlaceholdersSlice(t, 14, 15, 20);
  }
  lemma {:induction false} CountEnd(t: string)
    requires |t| == 36
    requires forall i :: 20 <= i < 36 && i != 23 ==> t[i] == 'x'
    requires t[23] == '-'
    ensures Placeholders(t[20..36]) == 15
  {
    XRun(t, 20, 23); OneChar(t, 23); XRun(t, 24, 36);
    PlaceholdersSlice(t, 23, 24, 36);
    PlaceholdersSlice(t, 20, 23, 36);
  }
  /** The template has 31 placeholders: 30 `x` and one `y`. */
  lemma TemplatePlaceholders()
    ensures Placeholders(Template) == 31
  {
    TemplateShape();
    CountHead(Template);
    CountTail(Template);
    PlaceholdersSlice(Template, 0, 14, 36);
    assert Template[0..36] == Template;
  }

  /** The fallback branch of `generateUUID()`, given the 31 random nibbles it draws. */
  function FallbackUUID(rs: seq<Nibble>): (u: string)
    requires |rs| == 31
    ensures |u| == 36
  {
    TemplatePlaceholders();
    Fill(Template, rs)
  }

  /** The fallback output keeps the hyphens and the version digit 4, and puts a
      variant digit 8, 9, a or b at index 19 and lower-case hex digits elsewhere:
      it always passes `isValidUUID`. */
  lemma FallbackIsValid(rs: seq<Nibble>)
    requires |rs| == 31
    ensures var u := FallbackUUID(rs);
      && IsValidUUID(u)
      && u[8] == '-' && u[13] == '-' && u[18] == '-' && u[23] == '-' && u[14] == '4'
      && forall i :: 0 <= i < 36 ==> !('A' <= u[i] <= 'F')
  {
    assert FallbackUUID(rs) == Fill(Template, rs) by { TemplatePlaceholders(); }
    assert Placeholders(Template) == |rs| by { TemplatePlaceholders(); }
    TemplateShape();
    FillShapedTemplate(Template, rs);
  }

  /** Filling any string with the template's shape gives a valid identifier,
      with the dashes and the version digit in place and no upper-case letter. */
  lemma FillShapedTemplate(t: string, rs: seq<Nibble>)
    requires |rs| == Placeholders(t) && |t| == 36
    requires forall i :: 0 <= i < 36 && i != 8 && i != 13 && i != 14 && i != 18 && i != 19 && i != 23 ==> t[i] == 'x'
    requires t[8] == '-' && t[13] == '-' && t[18] == '-' && t[23] == '-'
    requires t[14] == '4' && t[19] == 'y'
    ensures var u := Fill(t, rs);
      && IsValidUUID(u)
      && u[8] == '-' && u[13] == '-' && u[18] == '-' && u[23] == '-' && u[14] == '4'
      && forall i :: 0 <= i < 36 ==> !('A' <= u[i] <= 'F')
  {
    FillTemplateShape(t, rs);
    FallbackShape(Fill(t, rs));
  }

  /** Filling any string with the template's shape gives the fallback's
      character classes at each position. */
  lemma FillTemplateShape(t: string, rs: seq<Nibble>)
    requires |rs| == Placeholders(t) && |t| == 36
    requires forall i :: 0 <= i < 36 && i != 8 && i != 13 && i != 14 && i != 18 && i != 19 && i != 23 ==> t[i] == 'x'
    requires t[8] == '-' && t[13] == '-' && t[18] == '-' && t[23] == '-'
    requires t[14] == '4' && t[19] == 'y'
    ensures var u := Fill(t, rs);
      && (forall i :: 0 <= i < 36 && i != 8 && i != 13 && i != 14 && i != 18 && i != 19 && i != 23 ==> IsHex(u[i]))
      && u[8] == '-' && u[13] == '-' && u[18] == '-' && u[23] == '-' && u[14] == '4'
      && u[19] in "89ab"
      && forall i :: 0 <= i < 36 ==> !('A' <= u[i] <= 'F')
  {
    FillShape(t, rs);
  }

  /** A string with the fallback's character classes at each position is valid. */
  lemma FallbackShape(u: string)
    requires |u| == 36
    requires forall i :: 0 <= i < 36 && i != 8 && i != 13 && i != 14 && i != 18 && i != 19 && i != 23 ==> IsHex(u[i])
    requires u[8] == '-' && u[13] == '-' && u[18] == '-' && u[23] == '-' && u[14] == '4'
    requires u[19] in "89ab"
    ensures IsValidUUID(u)
  {
    assert forall a, b :: 0 <= a <= b <= 36 ==> |u[a..b]| == b - a;
  }

  /** `generateUUID()`: `native` is `crypto.randomUUID()` when the platform has
      it; otherwise the template is filled from the nibbles. */
  function GenerateUUID(native: Option<string>, rs: seq<Nibble>): (u: string)
    requires |rs| == 31
    ensures native.Some? ==> u == native.value
    ensures native.None? ==> IsValidUUID(u)
  {
    if native.Some? then native.value
    else
      FallbackIsValid(rs);
      FallbackUUID(rs)
  }
}
