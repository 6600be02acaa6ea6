/**
 Presentation and network form of IPv4 and IPv6 addresses.  The printer's and
 the parser's character loops are proved against token-level functions, and the
 parser against the printer.
 */
module Inet {
  import opened Words

  type Byte = b: nat | b < 256
  type Group = w: nat | w < 0x1_0000
  type Groups = ws: seq<Group> | |ws| == 8 witness seq(8, _ => 0)

  datatype Option<T> = None | Some(value: T)

  // ---- digits ----

  function Base(hex: bool): nat {
    if hex then 16 else 10
  }

  /** Multiplying and dividing by the base. */
  function Times(hex: bool, n: nat): nat {
    if hex then 16 * n else 10 * n
  }

  function Over(hex: bool, n: nat): (q: nat)
    ensures n > 0 ==> q < n
  {
    if hex then n / 16 else n / 10
  }

  function LastDigit(hex: bool, n: nat): (d: nat)
    ensures d < Base(hex) && n == Times(hex, Over(hex, n)) + d
  {
    if hex then n % 16 else n % 10
  }

  /** The value of a digit, or -1; hexadecimal digits of either case. */
  function DigitOf(hex: bool, c: char): (d: int)
    ensures -1 <= d < Base(hex)
  {
    if '0' <= c <= '9' then c as int - '0' as int
    else if hex && 'a' <= c <= 'f' then c as int - 'a' as int + 10
    else if hex && 'A' <= c <= 'F' then c as int - 'A' as int + 10
    else -1
  }

  predicate AllDigits(hex: bool, s: string) {
    forall i | 0 <= i < |s| :: DigitOf(hex, s[i]) >= 0
  }

  /** How many digits s begins with. */
  function Span(hex: bool, s: string): (n: nat)
    ensures n <= |s| && AllDigits(hex, s[..n]) && (n < |s| ==> DigitOf(hex, s[n]) < 0)
  {
    if s == "" || DigitOf(hex, s[0]) < 0 then 0
    else
      var n := 1 + Span(hex, s[1..]);
      assert s[..n] == [s[0]] + s[1..][..n - 1];
      n
  }

  function Value(hex: bool, s: string): nat
    requires AllDigits(hex, s)
  {
    if s == "" then 0 else Times(hex, Value(hex, s[..|s| - 1])) + DigitOf(hex, s[|s| - 1])
  }

  lemma {:induction false} SpanAtLeast(hex: bool, s: string, n: nat)
    requires n <= |s| && AllDigits(hex, s[..n])
    ensures Span(hex, s) >= n
  {
    if n > 0 {
      assert s[0] == s[..n][0];
      assert s[1..][..n - 1] == s[..n][1..];
      SpanAtLeast(hex, s[1..], n - 1);
    }
  }

  lemma {:induction false} SpanIs(hex: bool, s: string, n: nat)
    requires n <= |s| && AllDigits(hex, s[..n]) && (n < |s| ==> DigitOf(hex, s[n]) < 0)
    ensures Span(hex, s) == n
  {
    if n > 0 {
      assert s[0] == s[..n][0];
      assert s[1..][..n - 1] == s[..n][1..];
      SpanIs(hex, s[1..], n - 1);
    }
  }

  lemma ValueStep(hex: bool, s: string, c: char)
    requires AllDigits(hex, s) && DigitOf(hex, c) >= 0
    ensures AllDigits(hex, s + [c]) && Value(hex, s + [c]) == Times(hex, Value(hex, s)) + DigitOf(hex, c)
  {
    assert (s + [c])[..|s|] == s;
  }

  /** More digits do not make the value smaller. */
  lemma {:induction false} ValueGrows(hex: bool, s: string, n: nat)
    requires AllDigits(hex, s) && n <= |s|
    ensures AllDigits(hex, s[..n]) && Value(hex, s[..n]) <= Value(hex, s)
  {
    if n == |s| {
      assert s[..n] == s;
    } else {
      var t := s[..|s| - 1];
      ValueGrows(hex, t, n);
      assert t[..n] == s[..n];
    }
  }

  lemma {:induction false} HexValueBound(s: string)
    requires AllDigits(true, s) && |s| <= 4
    ensures Value(true, s) < 0x1_0000
    ensures |s| <= 3 ==> Value(true, s) < 0x1000
    ensures |s| <= 2 ==> Value(true, s) < 0x100
    ensures |s| <= 1 ==> Value(true, s) < 0x10
  {
    if s != "" { HexValueBound(s[..|s| - 1]); }
  }

  function DigitChar(d: nat): char
    requires d < 16
  {
    if d < 10 then '0' + d as char else 'a' + (d - 10) as char
  }

  /** printf's %u and %x. */
  function Show(hex: bool, n: nat): (s: string)
    ensures |s| >= 1
  {
    if n < Base(hex) then [DigitChar(n)] else Show(hex, Over(hex, n)) + [DigitChar(LastDigit(hex, n))]
  }

  lemma DigitOfChar(hex: bool, d: nat)
    requires d < Base(hex)
    ensures DigitOf(hex, DigitChar(d)) == d && (DigitOf(true, DigitChar(d)) == d)
  {
  }

  /** What is shown reads back. */
  lemma {:induction false} ShowValue(hex: bool, n: nat)
    ensures AllDigits(hex, Show(hex, n)) && AllDigits(true, Show(hex, n)) && Value(hex, Show(hex, n)) == n
  {
    hide DigitOf, DigitChar, AllDigits, Value;
    var d, q := LastDigit(hex, n), Over(hex, n);
    DigitOfChar(hex, d);
    if n < Base(hex) {
      AllDigitsEmpty();
      ValueStep(hex, "", DigitChar(d));
      ValueStep(true, "", DigitChar(d));
      assert "" + [DigitChar(d)] == Show(hex, n);
    } else {
      ShowValue(hex, q);
      ValueStep(hex, Show(hex, q), DigitChar(d));
      ValueStep(true, Show(hex, q), DigitChar(d));
    }
  }

  lemma AllDigitsEmpty()
    ensures AllDigits(true, "") && AllDigits(false, "") && Value(true, "") == 0 == Value(false, "")
  {
  }

  lemma {:induction false} ShowWidth(hex: bool, n: nat)
    ensures hex && n < 0x1_0000 ==> |Show(hex, n)| <= 4
    ensures !hex && n < 256 ==> |Show(hex, n)| <= 3
  {
    var n1 := Over(hex, n);
    var n2 := Over(hex, n1);
    var n3 := Over(hex, n2);
    if hex && n < 0x1_0000 {
      assert n1 < 0x1000 && n2 < 0x100 && n3 < 0x10;
      assert |Show(hex, n3)| == 1;
      assert |Show(hex, n2)| <= 2;
      assert |Show(hex, n1)| <= 3;
    }
    if !hex && n < 256 {
      assert n1 < 26 && n2 < 3;
      assert |Show(hex, n2)| == 1;
      assert |Show(hex, n1)| <= 2;
    }
  }

  /** What is shown has lower-case digits and no leading zero. */
  lemma {:induction false} ShowCanonical(hex: bool, n: nat)
    ensures forall i | 0 <= i < |Show(hex, n)| :: '0' <= Show(hex, n)[i] <= '9' || (hex && 'a' <= Show(hex, n)[i] <= 'f')
    ensures n > 0 ==> Show(hex, n)[0] != '0'
  {
    if n >= Base(hex) { ShowCanonical(hex, Over(hex, n)); }
  }

  // ---- inet_pton4 ----

  /** n octets separated by dots, nothing after them. */
  function Octets(s: string, n: nat): (r: Option<seq<Byte>>)
    requires n >= 1
    ensures r.Some? ==> |r.value| == n
    decreases n
  {
    var d := Span(false, s);
    if d == 0 || Value(false, s[..d]) > 255 then None
    else if n == 1 then if d == |s| then Some([Value(false, s[..d])]) else None
    else if d < |s| && s[d] == '.' then
      match Octets(s[d + 1..], n - 1)
      case Some(r) => Some([Value(false, s[..d])] + r)
      case None => None
    else None
  }

  function After(done: seq<Byte>, r: Option<seq<Byte>>): Option<seq<Byte>> {
    if r.Some? then Some(done + r.value) else None
  }

  /** An octet that is too large, or a digit string followed by a wrong character, is refused. */
  lemma OctetRefused(s: string, n: nat, i: nat)
    requires n >= 1 && i < |s| && AllDigits(false, s[..i])
    requires || (DigitOf(false, s[i]) >= 0 && 10 * Value(false, s[..i]) + DigitOf(false, s[i]) > 255)
             || (DigitOf(false, s[i]) < 0 && (s[i] != '.' || i == 0 || n == 1))
    ensures Octets(s, n) == None
  {
    if DigitOf(false, s[i]) >= 0 {
      ValueStep(false, s[..i], s[i]);
      assert s[..i] + [s[i]] == s[..i + 1];
      var d := Span(false, s);
      SpanAtLeast(false, s, i + 1);
      ValueGrows(false, s[..d], i + 1);
      assert s[..d][..i + 1] == s[..i + 1];
    } else {
      SpanIs(false, s, i);
    }
  }

  lemma OctetDone(s: string, n: nat, i: nat)
    requires n >= 2 && 0 < i < |s| && AllDigits(false, s[..i]) && Value(false, s[..i]) <= 255 && s[i] == '.'
    ensures Octets(s, n) == After([Value(false, s[..i])], Octets(s[i + 1..], n - 1))
  {
    SpanIs(false, s, i);
  }

  lemma OctetLast(s: string, n: nat)
    requires n >= 1 && AllDigits(false, s) && (s != "" ==> Value(false, s) <= 255)
    ensures Octets(s, n) == if n == 1 && s != "" then Some([Value(false, s)]) else None
  {
    assert s[..|s|] == s;
    SpanIs(false, s, |s|);
  }

  lemma AfterAfter(a: seq<Byte>, b: seq<Byte>, r: Option<seq<Byte>>)
    ensures After(a, After(b, r)) == After(a + b, r)
  {
    if r.Some? { assert a + (b + r.value) == a + b + r.value; }
  }

  /** inet_pton4 before character i: octets up to tp are stored, the one begun at tok is being read. */
  ghost predicate Reading4(src: string, tmp: seq<Byte>, tp: nat, tok: nat, i: nat) {
    && |tmp| == 4 && tp < 4 && tok <= i <= |src|
    && AllDigits(false, src[tok..i]) && tmp[tp] == Value(false, src[tok..i])
    && Octets(src, 4) == After(tmp[..tp], Octets(src[tok..], 4 - tp))
  }

  lemma StartRead(src: string, tmp: seq<Byte>)
    requires |tmp| == 4 && tmp[0] == 0
    ensures Reading4(src, tmp, 0, 0, 0)
  {
    hide Octets;
    var r := Octets(src, 4);
    assert src[0..] == src && src[0..0] == "" && tmp[..0] == [];
    if r.Some? { assert [] + r.value == r.value; }
  }

  lemma DigitRead(src: string, tmp: seq<Byte>, tp: nat, tok: nat, i: nat)
    requires Reading4(src, tmp, tp, tok, i) && i < |src| && DigitOf(false, src[i]) >= 0
    ensures var v := tmp[tp] * 10 + DigitOf(false, src[i]);
      if v > 255 then Octets(src, 4) == None else Reading4(src, tmp[tp := v], tp, tok, i + 1)
  {
    hide Octets, Value, DigitOf;
    var v := tmp[tp] * 10 + DigitOf(false, src[i]);
    var s := src[tok..];
    assert s[..i - tok] == src[tok..i] && s[i - tok] == src[i];
    if v > 255 {
      OctetRefused(s, 4 - tp, i - tok);
    } else {
      ValueStep(false, src[tok..i], src[i]);
      assert src[tok..i] + [src[i]] == src[tok..i + 1];
      assert tmp[tp := v][..tp] == tmp[..tp];
    }
  }

  lemma OtherRead(src: string, tmp: seq<Byte>, tp: nat, tok: nat, i: nat)
    requires Reading4(src, tmp, tp, tok, i) && i < |src| && DigitOf(false, src[i]) < 0
    ensures if src[i] != '.' || i == tok || tp == 3 then Octets(src, 4) == None
            else Reading4(src, tmp[tp + 1 := 0], tp + 1, i + 1, i + 1)
  {
    hide Octets, DigitOf;
    var s := src[tok..];
    assert s[..i - tok] == src[tok..i] && s[i - tok] == src[i];
    if src[i] != '.' || i == tok || tp == 3 {
      OctetRefused(s, 4 - tp, i - tok);
    } else {
      OctetDone(s, 4 - tp, i - tok);
      assert s[i - tok + 1..] == src[i + 1..];
      AfterAfter(tmp[..tp], [tmp[tp]], Octets(src[i + 1..], 3 - tp));
      assert tmp[tp + 1 := 0][..tp + 1] == tmp[..tp] + [tmp[tp]];
    }
  }

  lemma AllRead(src: string, tmp: seq<Byte>, tp: nat, tok: nat)
    requires Reading4(src, tmp, tp, tok, |src|)
    ensures Octets(src, 4) == if tp == 3 && tok < |src| then Some(tmp) else None
  {
    hide Octets, Value, DigitOf;
    assert src[tok..] == src[tok..|src|];
    OctetLast(src[tok..], 4 - tp);
    assert tp == 3 ==> tmp == tmp[..tp] + [tmp[tp]];
  }

  /** The loop of inet_pton4, into its own buffer. */
  method Scan4(src: string) returns (ok: bool, tmp: array<Byte>)
    ensures fresh(tmp) && tmp.Length == 4
    ensures Octets(src, 4) == if ok then Some(tmp[..]) else None
  {
    var sawDigit, octets := false, 0;
    tmp := new Byte[4](_ => 0);
    var tp, i := 0, 0;
    ghost var tok := 0;
    StartRead(src, tmp[..]);
    hide *;
    while i < |src|
      invariant 0 <= tok <= i <= |src| && tp < 4
      invariant Reading4(src, tmp[..], tp, tok, i)
      invariant sawDigit <==> tok < i
      invariant octets == tp + if sawDigit then 1 else 0
    {
      if DigitOf(false, src[i]) >= 0 {
        ok := TakeDigit(src, tmp, tp, i, tok);
        if !ok {
          return;
        }
        if !sawDigit {
          octets := octets + 1;
          sawDigit := true;
        }
      } else {
        ok := EndOctet(src, tmp, tp, i, sawDigit, octets, tok);
        if !ok {
          return;
        }
        tp := tp + 1;
        sawDigit := false;
        tok := i + 1;
      }
      i := i + 1;
    }
    AllRead(src, tmp[..], tp, tok);
    return octets == 4, tmp;
  }

  /** One more digit of the octet being read, unless it grows too large. */
  method TakeDigit(src: string, tmp: array<Byte>, tp: nat, i: nat, ghost tok: nat) returns (ok: bool)
    requires tmp.Length == 4 && tp < 4 && Reading4(src, tmp[..], tp, tok, i) && i < |src| && DigitOf(false, src[i]) >= 0
    modifies tmp
    ensures if ok then Reading4(src, tmp[..], tp, tok, i + 1) else Octets(src, 4) == None
  {
    hide *;
    DigitRead(src, tmp[..], tp, tok, i);
    var v := tmp[tp] as int * 10 + DigitOf(false, src[i]);
    if v > 255 {
      return false;
    }
    ghost var was := tmp[..];
    tmp[tp] := v;
    assert tmp[..] == was[tp := tmp[tp]];
    return true;
  }

  /** A dot after an octet that is not the last. */
  method EndOctet(src: string, tmp: array<Byte>, tp: nat, i: nat, sawDigit: bool, octets: int, ghost tok: nat) returns (ok: bool)
    requires tmp.Length == 4 && tp < 4 && Reading4(src, tmp[..], tp, tok, i) && i < |src| && DigitOf(false, src[i]) < 0
    requires tok <= i && (sawDigit <==> tok < i) && octets == tp + if sawDigit then 1 else 0
    modifies tmp
    ensures if ok then sawDigit && tp < 3 && Reading4(src, tmp[..], tp + 1, i + 1, i + 1) else Octets(src, 4) == None
  {
    hide *;
    OtherRead(src, tmp[..], tp, tok, i);
    if src[i] != '.' || !sawDigit || octets == 4 {
      return false;
    }
    ghost var was := tmp[..];
    tmp[tp + 1] := 0;
    assert tmp[..] == was[tp + 1 := 0];
    return true;
  }

  /** inet_pton4: dst is written exactly when src is a dotted quad. */
  method Pton4(src: string, dst: array<Byte>, at: nat) returns (ok: bool)
    requires at + 4 <= dst.Length
    modifies dst
    ensures ok <==> Octets(src, 4).Some?
    ensures ok ==> dst[..] == old(dst[..at]) + Octets(src, 4).value + old(dst[at + 4..])
    ensures !ok ==> dst[..] == old(dst[..])
  {
    var tmp;
    ok, tmp := Scan4(src);
    if ok {
      Copy(tmp, dst, at);
    }
  }

  /** memcpy of the whole of tmp */
  method Copy(tmp: array<Byte>, dst: array<Byte>, at: nat)
    requires tmp != dst && at + tmp.Length <= dst.Length
    modifies dst
    ensures dst[..] == old(dst[..at]) + tmp[..] + old(dst[at + tmp.Length..])
  {
    forall k | 0 <= k < tmp.Length {
      dst[at + k] := tmp[k];
    }
  }

  // ---- inet_pton6 ----

  function Pack(v: Group): (r: seq<Byte>)
    ensures |r| == 2
  {
    [v / 256, v % 256]
  }

  function Zeros(n: nat): (r: seq<Byte>)
    ensures |r| == n && forall i | 0 <= i < n :: r[i] == 0
  {
    seq(n, _ => 0)
  }

  /** The 16 bytes written as out with a double colon before byte c of it, if there was one. */
  function Finish(out: seq<Byte>, colon: Option<nat>): (r: Option<seq<Byte>>)
    requires |out| <= 16 && (colon.Some? ==> colon.value <= |out|)
    ensures r.Some? ==> |r.value| == 16
  {
    match colon
    case None => if |out| == 16 then Some(out) else None
    case Some(c) =>
      if |out| < 16 then Some(out[..c] + Zeros(16 - |out|) + out[c..])
      else Some(out[..c] + Zeros(16 - c))
  }

  /** The address read from s, which starts a token, after out. */
  function Tokens(s: string, out: seq<Byte>, colon: Option<nat>): (r: Option<seq<Byte>>)
    requires |out| <= 16 && (colon.Some? ==> colon.value <= |out|)
    ensures r.Some? ==> |r.value| == 16
    decreases |s|
  {
    var d := Span(true, s);
    if d > 4 then None
    else
      HexValueBound(s[..d]);
      var v := Value(true, s[..d]);
      if d == |s| then
        if d == 0 then Finish(out, colon) else if |out| + 2 > 16 then None else Finish(out + Pack(v), colon)
      else if s[d] == ':' then
        if d == 0 then if colon.Some? then None else Tokens(s[1..], out, Some(|out|))
        else if d + 1 == |s| || |out| + 2 > 16 then None
        else Tokens(s[d + 1..], out + Pack(v), colon)
      else if s[d] == '.' && |out| + 4 <= 16 && Octets(s, 4).Some? then Finish(out + Octets(s, 4).value, colon)
      else None
  }

  function Parse6(s: string): (r: Option<seq<Byte>>)
    ensures r.Some? ==> |r.value| == 16
  {
    if s == "" || s[0] != ':' then Tokens(s, [], None)
    else if |s| < 2 || s[1] != ':' then None
    else Tokens(s[1..], [], None)
  }

  datatype State6 = State6(tmp: seq<Byte>, tp: nat, colonp: int, val: nat)

  function ColonOf(colonp: int): Option<nat> {
    if colonp < 0 then None else Some(colonp)
  }

  /** inet_pton6 before character i: tp bytes are stored, the token begun at tok is being read; r is the answer to come. */
  ghost predicate Reading6(src: string, m: State6, tok: nat, i: nat, r: Option<seq<Byte>>) {
    && |m.tmp| == 16 && m.tp <= 16 && -1 <= m.colonp <= m.tp && (forall k | m.tp <= k < 16 :: m.tmp[k] == 0)
    && tok <= i <= |src| && i - tok <= 4
    && AllDigits(true, src[tok..i]) && m.val == Value(true, src[tok..i])
    && r == Tokens(src[tok..], m.tmp[..m.tp], ColonOf(m.colonp))
  }

  lemma XDigitRead(src: string, m: State6, tok: nat, i: nat, r: Option<seq<Byte>>)
    requires Reading6(src, m, tok, i, r) && i < |src| && DigitOf(true, src[i]) >= 0
    ensures if i - tok >= 4 then r == None
      else Reading6(src, m.(val := m.val * 16 + DigitOf(true, src[i])), tok, i + 1, r) && m.val * 16 + DigitOf(true, src[i]) < 0x1_0000
  {
    hide Tokens, Value, DigitOf;
    ValueStep(true, src[tok..i], src[i]);
    assert src[tok..i] + [src[i]] == src[tok..i + 1];
    if i - tok >= 4 {
      var s := src[tok..];
      assert s[..i + 1 - tok] == src[tok..i + 1];
      LongToken(s, i + 1 - tok, m.tmp[..m.tp], ColonOf(m.colonp));
    } else {
      HexValueBound(src[tok..i + 1]);
      hide AllDigits;
    }
  }

  lemma LongToken(s: string, n: nat, out: seq<Byte>, colon: Option<nat>)
    requires |out| <= 16 && (colon.Some? ==> colon.value <= |out|)
    requires 4 < n <= |s| && AllDigits(true, s[..n])
    ensures Tokens(s, out, colon) == None
  {
    SpanAtLeast(true, s, n);
    hide Span, Octets, Finish, Value, DigitOf;
  }

  /** The token ends at i. */
  lemma TokenEnds(src: string, tok: nat, i: nat)
    requires tok <= i <= |src| && AllDigits(true, src[tok..i]) && (i < |src| ==> DigitOf(true, src[i]) < 0)
    ensures Span(true, src[tok..]) == i - tok && src[tok..][..i - tok] == src[tok..i]
  {
    var s := src[tok..];
    assert s[..i - tok] == src[tok..i];
    SpanIs(true, s, i - tok);
  }

  function Stored(m: State6): seq<Byte>
    requires |m.tmp| == 16 && m.tp + 2 <= 16 && m.val < 0x1_0000
  {
    m.tmp[m.tp := m.val / 256][m.tp + 1 := m.val % 256]
  }

  lemma StoredPrefix(m: State6)
    requires |m.tmp| == 16 && m.tp + 2 <= 16 && m.val < 0x1_0000
    ensures Stored(m)[..m.tp + 2] == m.tmp[..m.tp] + Pack(m.val)
  {
  }

  lemma GroupRead(src: string, m: State6, tok: nat, i: nat, r: Option<seq<Byte>>)
    requires Reading6(src, m, tok, i, r) && i < |src| && src[i] == ':' && i > tok
    ensures m.val < 0x1_0000
    ensures if i + 1 == |src| || m.tp + 2 > 16 then r == None
      else Reading6(src, State6(Stored(m), m.tp + 2, m.colonp, 0), i + 1, i + 1, r)
  {
    TokenEnds(src, tok, i);
    HexValueBound(src[tok..i]);
    var s := src[tok..];
    assert s[i - tok] == ':' && s[i - tok + 1..] == src[i + 1..];
    assert src[i + 1..i + 1] == "";
    if m.tp + 2 <= 16 { StoredPrefix(m); }
    hide Span, DigitOf, Octets, Finish;
  }

  lemma DoubleColonRead(src: string, m: State6, tok: nat, r: Option<seq<Byte>>)
    requires Reading6(src, m, tok, tok, r) && tok < |src| && src[tok] == ':'
    ensures m.val == 0
    ensures if m.colonp >= 0 then r == None else Reading6(src, m.(colonp := m.tp), tok + 1, tok + 1, r)
  {
    TokenEnds(src, tok, tok);
    var s := src[tok..];
    assert s[0] == ':' && s[1..] == src[tok + 1..];
    assert src[tok + 1..tok + 1] == "" && src[tok..tok] == "";
    hide Span, DigitOf, Octets, Finish;
  }

  /** The text is read: r is what is stored, with the zeros of the double colon still to be put in. */
  ghost predicate Ready6(tmp: seq<Byte>, tp: nat, colonp: int, r: Option<seq<Byte>>) {
    && |tmp| == 16 && tp <= 16 && -1 <= colonp <= tp && (forall k | tp <= k < 16 :: tmp[k] == 0)
    && r == Finish(tmp[..tp], ColonOf(colonp))
  }

  lemma DotRead(src: string, m: State6, tok: nat, i: nat, r: Option<seq<Byte>>)
    requires Reading6(src, m, tok, i, r) && i < |src| && src[i] == '.'
    ensures var q := Octets(src[tok..], 4);
      if m.tp + 4 <= 16 && q.Some? then Ready6(m.tmp[..m.tp] + q.value + m.tmp[m.tp + 4..], m.tp + 4, m.colonp, r)
      else r == None
  {
    TokenEnds(src, tok, i);
    hide Span, DigitOf, Octets, Finish, Value, Tokens;
    var s := src[tok..];
    assert s[i - tok] == '.';
    var q := Octets(s, 4);
    DotToken(s, m.tmp[..m.tp], ColonOf(m.colonp));
    if m.tp + 4 <= 16 && q.Some? {
      QuadPlaced(m.tmp, m.tp, q.value);
    }
  }

  /** What follows a token that ends in a dot. */
  lemma DotToken(s: string, out: seq<Byte>, colon: Option<nat>)
    requires |out| <= 16 && (colon.Some? ==> colon.value <= |out|)
    requires Span(true, s) <= 4 && Span(true, s) < |s| && s[Span(true, s)] == '.'
    ensures Tokens(s, out, colon) ==
      if |out| + 4 <= 16 && Octets(s, 4).Some? then Finish(out + Octets(s, 4).value, colon) else None
  {
    hide Span, DigitOf, Octets, Finish, Value;
  }

  lemma QuadPlaced(tmp: seq<Byte>, tp: nat, q: seq<Byte>)
    requires |tmp| == 16 && tp + 4 <= 16 && |q| == 4 && forall k | tp <= k < 16 :: tmp[k] == 0
    ensures var t := tmp[..tp] + q + tmp[tp + 4..];
      |t| == 16 && t[..tp + 4] == tmp[..tp] + q && forall k | tp + 4 <= k < 16 :: t[k] == 0
  {
  }

  lemma WrongRead(src: string, m: State6, tok: nat, i: nat, r: Option<seq<Byte>>)
    requires Reading6(src, m, tok, i, r) && i < |src| && DigitOf(true, src[i]) < 0 && src[i] != ':' && src[i] != '.'
    ensures r == None
  {
    TokenEnds(src, tok, i);
    assert src[tok..][i - tok] == src[i];
    hide Span, DigitOf, Octets, Finish;
  }

  lemma EndRead(src: string, m: State6, tok: nat, r: Option<seq<Byte>>)
    requires Reading6(src, m, tok, |src|, r)
    ensures m.val < 0x1_0000
    ensures tok == |src| ==> Ready6(m.tmp, m.tp, m.colonp, r)
    ensures tok < |src| ==> if m.tp + 2 > 16 then r == None else Ready6(Stored(m), m.tp + 2, m.colonp, r)
  {
    TokenEnds(src, tok, |src|);
    HexValueBound(src[tok..|src|]);
    if m.tp + 2 <= 16 { StoredPrefix(m); }
    hide Span, DigitOf, Octets, Finish;
  }

  lemma StartRead6(src: string, tmp: seq<Byte>, start: nat)
    requires start <= |src| && |tmp| == 16 && forall k | 0 <= k < 16 :: tmp[k] == 0
    ensures Reading6(src, State6(tmp, 0, -1, 0), start, start, Tokens(src[start..], [], None))
  {
    assert src[start..start] == "" && tmp[..0] == [];
    hide Tokens;
  }

  /** The shift by hand: bytes from colonp on move to the end, and leave zeros. */
  method Shift(tmp: array<Byte>, colonp: nat, tp: nat)
    requires tmp.Length == 16 && colonp <= tp <= 16
    requires forall k | tp <= k < 16 :: tmp[k] == 0
    modifies tmp
    ensures Finish(old(tmp[..tp]), Some(colonp)) == Some(tmp[..])
  {
    var n, i := tp - colonp, 1;
    ghost var was := tmp[..];
    while i <= n
      invariant 1 <= i <= n + 1
      invariant forall k | 0 <= k < tp - (i - 1) :: tmp[k] == was[k]
      invariant forall k | tp - (i - 1) <= k < 17 - i :: tmp[k] == 0
      invariant forall k | 17 - i <= k < 16 :: tmp[k] == if tp < 16 then was[k - (16 - tp)] else 0
    {
      tmp[16 - i] := tmp[colonp + n - i];
      tmp[colonp + n - i] := 0;
      i := i + 1;
    }
    ghost var out := was[..tp];
    if tp < 16 {
      assert tmp[..] == out[..colonp] + Zeros(16 - tp) + out[colonp..];
    } else {
      assert tmp[..] == out[..colonp] + Zeros(16 - colonp);
    }
  }

  /** The loop of inet_pton6: false for a refusal, else the bytes written and where the double colon was. */
  method Scan6(src: string, start: nat) returns (ok: bool, tmp: array<Byte>, tp: nat, colonp: int)
    requires start <= |src|
    ensures fresh(tmp) && tmp.Length == 16
    ensures if ok then Ready6(tmp[..], tp, colonp, Tokens(src[start..], [], None)) else Tokens(src[start..], [], None) == None
  {
    tmp := new Byte[16](_ => 0);
    tp, colonp := 0, -1;
    var tok: nat, i: nat, val: nat := start, start, 0;
    ghost var r := Tokens(src[start..], [], None);
    StartRead6(src, tmp[..], start);
    hide *;
    while i < |src|
      invariant tok <= i <= |src|
      invariant Reading6(src, State6(tmp[..], tp, colonp, val), tok, i, r)
    {
      if src[i] == '.' {
        ok, tp := ReadDot(src, tmp, tp, colonp, val, tok, i, r);
        return;
      }
      ok, tp, colonp, val, tok := ReadChar(src, tmp, tp, colonp, val, tok, i, r);
      if !ok {
        return;
      }
      i := i + 1;
    }
    ok, tp := ReadEnd(src, tmp, tp, colonp, val, tok, r);
  }

  method ReadChar(src: string, tmp: array<Byte>, tp: nat, colonp: int, val: nat, tok: nat, i: nat, ghost r: Option<seq<Byte>>)
    returns (ok: bool, tp': nat, colonp': int, val': nat, tok': nat)
    requires tmp.Length == 16 && Reading6(src, State6(tmp[..], tp, colonp, val), tok, i, r) && tok <= i < |src| && src[i] != '.'
    modifies tmp
    ensures tok' <= i + 1
    ensures if ok then Reading6(src, State6(tmp[..], tp', colonp', val'), tok', i + 1, r) else r == None
  {
    hide *;
    tp', colonp', tok' := tp, colonp, tok;
    if src[i] == ':' {
      ok, tp', colonp' := ReadColon(src, tmp, tp, colonp, val, tok, i, r);
      val', tok' := 0, i + 1;
    } else {
      ok, val' := ReadDigit(src, val, tok, i, State6(tmp[..], tp, colonp, val), r);
    }
  }

  /** A digit, at most four to a group, or a character that has no place in an address. */
  method ReadDigit(src: string, val: nat, tok: nat, i: nat, ghost m: State6, ghost r: Option<seq<Byte>>)
    returns (ok: bool, val': nat)
    requires m.val == val && Reading6(src, m, tok, i, r) && i < |src| && src[i] != '.' && src[i] != ':'
    ensures if ok then Reading6(src, m.(val := val'), tok, i + 1, r) else r == None
  {
    var digit := DigitOf(true, src[i]);
    val' := val;
    if digit < 0 {
      WrongRead(src, m, tok, i, r);
      return false, val';
    }
    XDigitRead(src, m, tok, i, r);
    if i - tok >= 4 {
      return false, val';
    }
    val' := val * 16 + digit;
    assert val' <= 0xffff;
    return true, val';
  }

  /** A colon: it ends a group, or with no digit before it marks the place of the zeros. */
  method ReadColon(src: string, tmp: array<Byte>, tp: nat, colonp: int, val: nat, tok: nat, i: nat, ghost r: Option<seq<Byte>>)
    returns (ok: bool, tp': nat, colonp': int)
    requires tmp.Length == 16 && Reading6(src, State6(tmp[..], tp, colonp, val), tok, i, r) && i < |src| && src[i] == ':'
    modifies tmp
    ensures if ok then Reading6(src, State6(tmp[..], tp', colonp', 0), i + 1, i + 1, r) else r == None
  {
    ghost var m := State6(tmp[..], tp, colonp, val);
    tp', colonp', ok := tp, colonp, false;
    if i == tok {
      DoubleColonRead(src, m, tok, r);
      if colonp >= 0 {
        return;
      }
      colonp' := tp;
    } else {
      GroupRead(src, m, tok, i, r);
      if i + 1 == |src| || tp + 2 > 16 {
        return;
      }
      Store(tmp, tp, val, m);
      tp' := tp + 2;
    }
    ok := true;
  }

  /** A dot: the token is a dotted quad that ends the text. */
  method ReadDot(src: string, tmp: array<Byte>, tp: nat, colonp: int, val: nat, tok: nat, i: nat, ghost r: Option<seq<Byte>>)
    returns (ok: bool, tp': nat)
    requires tmp.Length == 16 && Reading6(src, State6(tmp[..], tp, colonp, val), tok, i, r) && i < |src| && src[i] == '.'
    modifies tmp
    ensures if ok then Ready6(tmp[..], tp', colonp, r) else r == None
  {
    DotRead(src, State6(tmp[..], tp, colonp, val), tok, i, r);
    hide Ready6, Octets, Tokens;
    ok, tp' := false, tp;
    if tp + 4 <= 16 {
      ok := Pton4(src[tok..], tmp, tp);
      tp' := tp + 4;
    }
  }

  /** The end of the text: the last group, if one was begun. */
  method ReadEnd(src: string, tmp: array<Byte>, tp: nat, colonp: int, val: nat, tok: nat, ghost r: Option<seq<Byte>>)
    returns (ok: bool, tp': nat)
    requires tmp.Length == 16 && Reading6(src, State6(tmp[..], tp, colonp, val), tok, |src|, r)
    modifies tmp
    ensures if ok then Ready6(tmp[..], tp', colonp, r) else r == None
  {
    ghost var m := State6(tmp[..], tp, colonp, val);
    EndRead(src, m, tok, r);
    hide Ready6, Tokens;
    ok, tp' := false, tp;
    if tok < |src| {
      if tp + 2 > 16 {
        return;
      }
      Store(tmp, tp, val, m);
      tp' := tp + 2;
    }
    ok := true;
  }

  /** A group as two bytes, high byte first. */
  method Store(tmp: array<Byte>, tp: nat, val: nat, ghost m: State6)
    requires tmp.Length == 16 && tp + 2 <= 16 && val < 0x1_0000 && m.tmp == tmp[..] && m.tp == tp && m.val == val
    modifies tmp
    ensures tmp[..] == Stored(m)
  {
    tmp[tp] := val / 256;
    tmp[tp + 1] := val % 256;
  }

  /** inet_pton6: dst is written exactly when src is an address. */
  method Pton6(src: string, dst: array<Byte>) returns (ok: bool)
    requires dst.Length == 16
    modifies dst
    ensures match Parse6(src)
      case Some(b) => ok && dst[..] == b
      case None => !ok && dst[..] == old(dst[..])
  {
    var start := 0;
    if src != "" && src[0] == ':' {
      if |src| < 2 || src[1] != ':' {
        return false;
      }
      start := 1;
    }
    assert src[0..] == src;
    var tmp, tp, colonp;
    ok, tmp, tp, colonp := Scan6(src, start);
    if !ok {
      return;
    }
    if colonp >= 0 {
      Shift(tmp, colonp, tp);
      tp := 16;
    }
    if tp != 16 {
      return false;
    }
    Copy(tmp, dst, 0);
    return true;
  }

  // ---- letter case ----

  function LowerChar(c: char): char {
    if 'A' <= c <= 'F' then c - 'A' + 'a' else c
  }

  function Lower(s: string): (r: string)
    ensures |r| == |s| && forall i | 0 <= i < |s| :: r[i] == LowerChar(s[i])
  {
    seq(|s|, i requires 0 <= i < |s| => LowerChar(s[i]))
  }

  /** Digits of either case have one value, and no other character is affected. */
  lemma LowerDigit(c: char)
    ensures DigitOf(true, LowerChar(c)) == DigitOf(true, c) && DigitOf(false, LowerChar(c)) == DigitOf(false, c)
    ensures (LowerChar(c) == ':' <==> c == ':') && (LowerChar(c) == '.' <==> c == '.')
    ensures 'A' <= c <= 'F' ==> DigitOf(true, c) == 10 + (c as int - 'A' as int)
  {
  }

  lemma LowerDigits(hex: bool, s: string)
    ensures AllDigits(hex, Lower(s)) <==> AllDigits(hex, s)
    ensures forall i | 0 <= i < |s| :: DigitOf(hex, Lower(s)[i]) == DigitOf(hex, s[i])
  {
    forall i | 0 <= i < |s|
      ensures DigitOf(hex, Lower(s)[i]) == DigitOf(hex, s[i])
    {
      LowerDigit(s[i]);
    }
    hide DigitOf;
  }

  lemma LowerSlice(s: string, i: nat, j: nat)
    requires i <= j <= |s|
    ensures Lower(s)[i..j] == Lower(s[i..j])
  {
  }

  lemma {:induction false} LowerValue(hex: bool, s: string)
    requires AllDigits(hex, s)
    ensures AllDigits(hex, Lower(s)) && Value(hex, Lower(s)) == Value(hex, s)
  {
    LowerDigits(hex, s);
    hide DigitOf, Times;
    if s != "" {
      var n := |s| - 1;
      LowerSlice(s, 0, n);
      assert s[..n] == s[0..n] && Lower(s)[..n] == Lower(s)[0..n];
      LowerValue(hex, s[..n]);
    }
  }

  lemma LowerSpan(hex: bool, s: string)
    ensures Span(hex, Lower(s)) == Span(hex, s)
    ensures Value(hex, Lower(s)[..Span(hex, s)]) == Value(hex, s[..Span(hex, s)])
  {
    var n := Span(hex, s);
    LowerDigits(hex, s);
    LowerSlice(s, 0, n);
    assert s[..n] == s[0..n] && Lower(s)[..n] == Lower(s)[0..n];
    LowerDigits(hex, s[..n]);
    SpanIs(hex, Lower(s), n);
    LowerValue(hex, s[..n]);
  }

  lemma {:induction false} LowerOctets(s: string, n: nat)
    requires n >= 1
    ensures Octets(Lower(s), n) == Octets(s, n)
    decreases n
  {
    LowerSpan(false, s);
    var d := Span(false, s);
    if d < |s| { LowerDigit(s[d]); }
    hide Span, Value, DigitOf, LowerChar;
    if n > 1 && d < |s| && s[d] == '.' {
      LowerSlice(s, d + 1, |s|);
      assert s[d + 1..] == s[d + 1..|s|] && Lower(s)[d + 1..] == Lower(s)[d + 1..|s|];
      LowerOctets(s[d + 1..], n - 1);
    }
  }

  lemma {:induction false} LowerTokens(s: string, out: seq<Byte>, colon: Option<nat>)
    requires |out| <= 16 && (colon.Some? ==> colon.value <= |out|)
    ensures Tokens(Lower(s), out, colon) == Tokens(s, out, colon)
    decreases |s|
  {
    hide Span, Value, DigitOf, LowerChar, Octets, Finish, Pack, Tokens;
    LowerSpan(true, s);
    LowerOctets(s, 4);
    var d, r := Span(true, s), Lower(s);
    if d < |s| {
      LowerDigit(s[d]);
      LowerSlice(s, d + 1, |s|);
      assert s[d + 1..] == s[d + 1..|s|] && r[d + 1..] == r[d + 1..|s|];
      if d <= 4 && s[d] == ':' {
        HexValueBound(s[..d]);
        LowerTokens(s[d + 1..], out, Some(|out|));
        if |out| + 2 <= 16 { LowerTokens(s[d + 1..], out + Pack(Value(true, s[..d])), colon); }
      }
    }
    SameTokens(s, r, out, colon);
  }

  /** Texts whose first tokens and what follows read alike read alike. */
  lemma SameTokens(s: string, r: string, out: seq<Byte>, colon: Option<nat>)
    requires |out| <= 16 && (colon.Some? ==> colon.value <= |out|) && |r| == |s|
    requires Span(true, r) == Span(true, s) && Octets(r, 4) == Octets(s, 4)
    requires Value(true, r[..Span(true, r)]) == Value(true, s[..Span(true, s)])
    requires var d := Span(true, s);
      && (d < |s| ==> (r[d] == ':' <==> s[d] == ':') && (r[d] == '.' <==> s[d] == '.'))
      && (d < |s| && d <= 4 && s[d] == ':' ==> Tokens(r[d + 1..], out, Some(|out|)) == Tokens(s[d + 1..], out, Some(|out|)))
      && (d < |s| && d <= 4 && s[d] == ':' && |out| + 2 <= 16 ==>
            Value(true, s[..d]) < 0x1_0000 &&
            Tokens(r[d + 1..], out + Pack(Value(true, s[..d])), colon) == Tokens(s[d + 1..], out + Pack(Value(true, s[..d])), colon))
    ensures Tokens(r, out, colon) == Tokens(s, out, colon)
  {
    hide Span, Value, DigitOf, Octets, Finish, Pack;
  }

  /** A text in upper case reads as its lower-case copy. */
  lemma UpperCaseReads(s: string)
    ensures Parse6(Lower(s)) == Parse6(s)
  {
    if s != "" {
      LowerDigit(s[0]);
      LowerSlice(s, 1, |s|);
      assert s[1..] == s[1..|s|] && Lower(s)[1..] == Lower(s)[1..|s|];
      LowerTokens(s[1..], [], None);
      if |s| > 1 { LowerDigit(s[1]); }
    }
    LowerTokens(s, [], None);
    hide Tokens, LowerChar;
  }

  // ---- inet_ntop4 ----

  function Dotted(q: seq<Byte>): string
    requires |q| >= 1
  {
    if |q| == 1 then Show(false, q[0]) else Show(false, q[0]) + "." + Dotted(q[1..])
  }

  /** Reading back a number shown before something that is not a digit. */
  lemma ShownToken(hex: bool, n: nat, rest: string)
    requires rest == "" || DigitOf(hex, rest[0]) < 0
    ensures var s := Show(hex, n) + rest; var d := |Show(hex, n)|;
      Span(hex, s) == d && s[..d] == Show(hex, n) && s[d..] == rest && Value(hex, s[..d]) == n
  {
    ShowValue(hex, n);
    var s := Show(hex, n) + rest;
    assert s[..|Show(hex, n)|] == Show(hex, n);
    SpanIs(hex, s, |Show(hex, n)|);
  }

  /** One octet and a dot before what is already read back. */
  lemma OctetsStep(b: Byte, rest: string, q: seq<Byte>)
    requires |q| >= 1 && Octets(rest, |q|) == Some(q)
    ensures Octets(Show(false, b) + "." + rest, 1 + |q|) == Some([b] + q)
  {
    var dot := "." + rest;
    ShownToken(false, b, dot);
    var s, d := Show(false, b) + "." + rest, |Show(false, b)|;
    assert s == Show(false, b) + dot;
    assert s[d] == '.' && s[d + 1..] == rest;
    hide Show, Value, DigitOf, Span;
  }

  lemma OneOctet(b: Byte)
    ensures Octets(Show(false, b), 1) == Some([b])
  {
    ShownToken(false, b, "");
    assert Show(false, b) + "" == Show(false, b);
    hide Show, Value, DigitOf, Span;
  }

  /** A dotted quad reads back. */
  lemma {:induction false} DottedOctets(q: seq<Byte>)
    requires |q| >= 1
    ensures Octets(Dotted(q), |q|) == Some(q)
  {
    hide Octets, Show;
    if |q| == 1 {
      OneOctet(q[0]);
      assert q == [q[0]];
    } else {
      DottedOctets(q[1..]);
      OctetsStep(q[0], Dotted(q[1..]), q[1..]);
      assert q == [q[0]] + q[1..];
    }
  }

  lemma DottedWidth(q: seq<Byte>)
    requires |q| >= 1
    ensures |Dotted(q)| < 4 * |q|
  {
    ShowWidth(false, q[0]);
  }

  /** inet_ntop4: the quad, if it and its terminator fit. */
  method Ntop4(src: seq<Byte>, size: nat) returns (r: Option<string>)
    requires |src| == 4
    ensures r == if |Dotted(src)| < size then Some(Dotted(src)) else None
    ensures r.Some? ==> Octets(r.value, 4) == Some(src)
    ensures size >= 16 ==> r.Some?
  {
    DottedOctets(src);
    DottedWidth(src);
    var tmp := Show(false, src[0]) + "." + Show(false, src[1]) + "." + Show(false, src[2]) + "." + Show(false, src[3]);
    DottedIs(src);
    if |tmp| >= size {
      return None;
    }
    return Some(tmp);
  }

  lemma DottedIs(q: seq<Byte>)
    requires |q| == 4
    ensures Dotted(q) == Show(false, q[0]) + "." + Show(false, q[1]) + "." + Show(false, q[2]) + "." + Show(false, q[3])
  {
    var d := Show(false, q[3]);
    assert Dotted(q[3..]) == d;
    assert q[1..][1..] == q[2..] && q[2..][1..] == q[3..];
    assert Dotted(q[2..]) == Show(false, q[2]) + "." + d;
    assert Dotted(q[1..]) == Show(false, q[1]) + "." + Dotted(q[2..]);
  }

  // ---- inet_ntop6 ----

  function Join(high: Byte, low: Byte): Group {
    high as nat * 256 + low as nat
  }

  function GroupsOf(src: seq<Byte>): Groups
    requires |src| == 16
  {
    seq(8, k requires 0 <= k < 8 => Join(src[2 * k], src[2 * k + 1]))
  }

  /** The words after the first i bytes have been or-ed in. */
  ghost predicate WordsSoFar(ws: seq<nat>, src: seq<Byte>, i: nat)
    requires |src| == 16
  {
    && |ws| == 8 && i <= 16
    && (forall k | 0 <= k < i / 2 :: ws[k] == GroupsOf(src)[k])
    && (i % 2 == 1 ==> ws[i / 2] == Join(src[i - 1], 0))
    && (forall k | (i + 1) / 2 <= k < 8 :: ws[k] == 0)
  }

  lemma OneByte(ws: seq<nat>, src: seq<Byte>, i: nat)
    requires |src| == 16 && WordsSoFar(ws, src, i) && i < 16
    ensures var shifted := if i % 2 == 0 then src[i] as nat * 256 else src[i] as nat;
      WordsSoFar(ws[i / 2 := BitwiseOr(ws[i / 2], shifted)], src, i + 1)
  {
    var shifted := if i % 2 == 0 then src[i] as nat * 256 else src[i] as nat;
    var v := BitwiseOr(ws[i / 2], shifted);
    if i % 2 == 0 {
      assert v == Join(src[i], 0);
    } else {
      OrBytes(src[i - 1], src[i]);
      assert v == GroupsOf(src)[i / 2];
    }
    hide BitwiseOr, Join, GroupsOf;
  }

  lemma OrBytes(high: Byte, b: Byte)
    ensures BitwiseOr(Join(high, 0), b) == Join(high, b)
  {
    Pow2Values();
    OrLow(high, b, 8);
  }

  /** The loop that copies the bytes into words. */
  method ReadGroups(src: seq<Byte>) returns (words: array<nat>)
    requires |src| == 16
    ensures fresh(words) && words.Length == 8 && words[..] == GroupsOf(src)
  {
    words := new nat[8](_ => 0);
    var i := 0;
    hide BitwiseOr, Join, GroupsOf;
    while i < 16
      invariant 0 <= i <= 16 && WordsSoFar(words[..], src, i)
    {
      hide WordsSoFar;
      ghost var was := words[..];
      OneByte(was, src, i);
      words[i / 2] := BitwiseOr(words[i / 2], if i % 2 == 0 then src[i] as nat * 256 else src[i] as nat);
      assert words[..] == was[i / 2 := words[i / 2]];
      i := i + 1;
    }
  }

  predicate ZeroRun(ws: Groups, b: int, l: int) {
    0 <= b && 0 <= l && b + l <= 8 && forall k | b <= k < b + l :: ws[k] == 0
  }

  /** No run of zero groups beats the one at b of length l: none is longer, none as long starts earlier. */
  ghost predicate Beats(ws: Groups, b: int, l: int, upto: int) {
    forall c, m {:trigger ZeroRun(ws, c, m)} | ZeroRun(ws, c, m) && m >= 1 && c + m <= upto ::
      b >= 0 && (m < l || (m == l && b <= c))
  }

  /** The run to shorten: the first of the longest runs of two zero groups or more. */
  ghost predicate BestRun(ws: Groups, b: int, l: int) {
    if b == -1 then !exists c :: ZeroRun(ws, c, 2)
    else ZeroRun(ws, b, l) && l >= 2 && Beats(ws, b, l, 8)
  }

  /** The scan for the run to shorten. */
  method FindRun(ws: Groups) returns (base: int, len: int)
    ensures -1 <= base < 8 && BestRun(ws, base, len)
  {
    base, len := -1, 0;
    var curBase, curLen := -1, 0;
    var i := 0;
    while i < 8
      invariant 0 <= i <= 8 && RunsSoFar(ws, base, len, curBase, curLen, i)
    {
      if ws[i] == 0 {
        if curBase == -1 {
          curBase, curLen := i, 1;
        } else {
          curLen := curLen + 1;
        }
      } else {
        if curBase != -1 {
          RunEnds(ws, base, len, curBase, curLen, i);
          if base == -1 || curLen > len {
            base, len := curBase, curLen;
          }
          curBase := -1;
        } else {
          RunSkips(ws, base, len, i);
        }
      }
      i := i + 1;
    }
    if curBase != -1 {
      RunEnds(ws, base, len, curBase, curLen, 8);
      if base == -1 || curLen > len {
        base, len := curBase, curLen;
      }
    }
    if base != -1 && len < 2 {
      base := -1;
    }
  }

  /** Before group i: base, len is the best run that has ended, cur the run in progress. */
  ghost predicate RunsSoFar(ws: Groups, base: int, len: int, curBase: int, curLen: int, i: int) {
    && -1 <= base && (base >= 0 ==> ZeroRun(ws, base, len) && 1 <= len && base + len <= if curBase >= 0 then curBase else i)
    && -1 <= curBase && Beats(ws, base, len, if curBase >= 0 then curBase else i)
    && (curBase >= 0 ==> ZeroRun(ws, curBase, curLen) && curBase + curLen == i && curLen >= 1 && (curBase > 0 ==> ws[curBase - 1] != 0))
    && (curBase == -1 && 0 < i <= 8 ==> ws[i - 1] != 0)
  }

  /** When the run in progress ends at i, the better of it and the best so far is the best up to i. */
  lemma RunEnds(ws: Groups, base: int, len: int, curBase: int, curLen: int, i: int)
    requires RunsSoFar(ws, base, len, curBase, curLen, i) && curBase >= 0 && i <= 8
    ensures if base == -1 || curLen > len then Beats(ws, curBase, curLen, i) else Beats(ws, base, len, i)
    ensures i < 8 && ws[i] != 0 ==>
      if base == -1 || curLen > len then Beats(ws, curBase, curLen, i + 1) else Beats(ws, base, len, i + 1)
  {
    forall c, m | ZeroRun(ws, c, m) && m >= 1 && c + m <= i
      ensures c + m <= curBase || (c >= curBase && m <= curLen)
    {
      assert !(c < curBase < c + m);
    }
    forall c, m | ZeroRun(ws, c, m) && m >= 1 && i < 8 && ws[i] != 0 && c + m <= i + 1
      ensures c + m <= i
    {
      assert c + m != i + 1;
    }
  }

  lemma RunSkips(ws: Groups, base: int, len: int, i: int)
    requires 0 <= i < 8 && ws[i] != 0 && Beats(ws, base, len, i)
    ensures Beats(ws, base, len, i + 1)
  {
    forall c, m | ZeroRun(ws, c, m) && m >= 1 && c + m <= i + 1
      ensures c + m <= i
    {
      assert c + m != i + 1;
    }
  }

  /** Whether the last four bytes are printed as a dotted quad: after ::, or after ::ffff. */
  predicate Quad(src: seq<Byte>, b: int, l: int)
    requires |src| == 16
  {
    b == 0 && (l == 6 || (l == 5 && GroupsOf(src)[5] == 0xffff))
  }

  /** Groups from i on, each after a colon. */
  function Tail(src: seq<Byte>, quad: bool, i: nat): string
    requires |src| == 16 && i <= 8
    decreases 8 - i
  {
    if i == 8 then ""
    else if quad && i == 6 then ":" + Dotted(src[12..])
    else ":" + Show(true, GroupsOf(src)[i]) + Tail(src, quad, i + 1)
  }

  /** The double colon for the run of l groups at b, and what follows it. */
  function Gap(src: seq<Byte>, b: int, l: int): string
    requires |src| == 16 && 0 <= b && 0 <= l && b + l <= 8
  {
    ":" + if b + l == 8 then ":" else Tail(src, Quad(src, b, l), b + l)
  }

  /** Groups from i on, each after a colon, up to the run. */
  function Lead(src: seq<Byte>, b: int, l: int, i: nat): string
    requires |src| == 16 && i <= 8 && (b >= 0 ==> i <= b && 0 <= l && b + l <= 8)
    decreases 8 - i
  {
    if i == b then Gap(src, b, l)
    else if i == 8 then ""
    else ":" + Show(true, GroupsOf(src)[i]) + Lead(src, b, l, i + 1)
  }

  /** The text of an address whose run of l zero groups at b is shortened; none is for b = -1. */
  function Text6(src: seq<Byte>, b: int, l: int): string
    requires |src| == 16 && (b >= 0 ==> 0 <= l && b + l <= 8)
  {
    if b == 0 then Gap(src, b, l) else Show(true, GroupsOf(src)[0]) + Lead(src, b, l, 1)
  }

  // ---- the text fits ----

  lemma {:induction false} TailWidth(src: seq<Byte>, quad: bool, i: nat)
    requires |src| == 16 && i <= 8
    ensures |Tail(src, quad, i)| <= 5 * (8 - i) + if quad && i <= 6 then 6 else 0
    decreases 8 - i
  {
    if i < 8 {
      if quad && i == 6 {
        DottedWidth(src[12..]);
      } else {
        ShowWidth(true, GroupsOf(src)[i]);
        TailWidth(src, quad, i + 1);
      }
    }
  }

  lemma {:induction false} LeadWidth(src: seq<Byte>, b: int, l: int, i: nat)
    requires |src| == 16 && i <= 8 && (b >= 0 ==> i <= b && 2 <= l && b + l <= 8)
    ensures |Lead(src, b, l, i)| <= 5 * (8 - i)
    decreases 8 - i
  {
    if i == b {
      TailWidth(src, Quad(src, b, l), b + l);
    } else if i < 8 {
      ShowWidth(true, GroupsOf(src)[i]);
      LeadWidth(src, b, l, i + 1);
    }
  }

  /** The text of every address fits the 46-byte buffer, terminator included. */
  lemma TextFits(src: seq<Byte>, b: int, l: int)
    requires |src| == 16 && (b >= 0 ==> 2 <= l && b + l <= 8)
    ensures |Text6(src, b, l)| <= 39
  {
    if b == 0 {
      TailWidth(src, Quad(src, b, l), b + l);
    } else {
      ShowWidth(true, GroupsOf(src)[0]);
      LeadWidth(src, b, l, 1);
    }
  }

  // ---- the round trip ----

  lemma JoinPack(src: seq<Byte>, i: nat)
    requires |src| == 16 && i < 8
    ensures Pack(GroupsOf(src)[i]) == src[2 * i..2 * i + 2]
  {
  }

  lemma GroupEnds(s: string, d: nat, w: Group, out: seq<Byte>, colon: Option<nat>)
    requires |out| + 2 <= 16 && (colon.Some? ==> colon.value <= |out|)
    requires Span(true, s) == d && 1 <= d <= 4 && Value(true, s[..d]) == w && (d == |s| || (s[d] == ':' && d + 1 < |s|))
    ensures Tokens(s, out, colon) ==
      if d == |s| then Finish(out + Pack(w), colon) else Tokens(s[d + 1..], out + Pack(w), colon)
  {
    hide Span, Value, DigitOf, Finish, Octets, Pack;
  }

  /** A group before a colon. */
  lemma GroupToken(w: Group, rest: string, out: seq<Byte>, colon: Option<nat>)
    requires |out| + 2 <= 16 && (colon.Some? ==> colon.value <= |out|)
    requires rest == "" || (rest[0] == ':' && |rest| > 1)
    ensures Tokens(Show(true, w) + rest, out, colon) ==
      if rest == "" then Finish(out + Pack(w), colon) else Tokens(rest[1..], out + Pack(w), colon)
  {
    ShowWidth(true, w);
    assert rest != "" ==> DigitOf(true, rest[0]) < 0;
    ShownToken(true, w, rest);
    hide *;
    var s, d := Show(true, w) + rest, |Show(true, w)|;
    assert rest != "" ==> s[d] == ':' && s[d + 1..] == rest[1..];
    GroupEnds(s, d, w, out, colon);
  }

  /** A dotted quad at the end. */
  lemma QuadToken(q: seq<Byte>, out: seq<Byte>, colon: Option<nat>)
    requires |q| == 4 && |out| + 4 <= 16 && (colon.Some? ==> colon.value <= |out|)
    ensures Tokens(Dotted(q), out, colon) == Finish(out + q, colon)
  {
    QuadSpan(q);
    DottedOctets(q);
    hide *;
    DotToken(Dotted(q), out, colon);
  }

  lemma QuadSpan(q: seq<Byte>)
    requires |q| == 4
    ensures var s := Dotted(q); var d := Span(true, s); d <= 3 && d < |s| && s[d] == '.'
  {
    var h := Show(false, q[0]);
    ShowValue(false, q[0]);
    ShowWidth(false, q[0]);
    hide Show, Value, Span;
    var s := Dotted(q);
    assert s == h + "." + Dotted(q[1..]);
    hide Dotted;
    assert s[..|h|] == h && s[|h|] == '.';
    SpanIs(true, s, |h|);
  }

  lemma TailUnfold(src: seq<Byte>, quad: bool, i: nat)
    requires |src| == 16 && i < 8
    ensures |Tail(src, quad, i)| > 1 && Tail(src, quad, i)[0] == ':'
    ensures Tail(src, quad, i)[1..] ==
      if quad && i == 6 then Dotted(src[12..]) else Show(true, GroupsOf(src)[i]) + Tail(src, quad, i + 1)
  {
    hide Show, GroupsOf;
    if quad && i == 6 {
      AfterColon(Dotted(src[12..]), "");
      hide Dotted;
      assert Dotted(src[12..]) + "" == Dotted(src[12..]);
    } else {
      AfterColon(Show(true, GroupsOf(src)[i]), Tail(src, quad, i + 1));
      hide Dotted;
    }
  }

  lemma AfterColon(a: string, b: string)
    ensures (":" + a + b)[0] == ':' && (":" + a + b)[1..] == a + b
  {
  }

  lemma {:induction false} TailTokens(src: seq<Byte>, quad: bool, i: nat, out: seq<Byte>, c: nat)
    requires |src| == 16 && i < 8 && c <= |out| && |out| <= 2 * i
    ensures Tokens(Tail(src, quad, i)[1..], out, Some(c)) == Finish(out + src[2 * i..], Some(c))
    decreases 8 - i
  {
    hide *;
    TailUnfold(src, quad, i);
    if quad && i == 6 {
      QuadToken(src[12..], out, Some(c));
    } else {
      var w := GroupsOf(src)[i];
      var rest := Tail(src, quad, i + 1);
      JoinPack(src, i);
      if i == 7 {
        TailEnd(src, quad);
        GroupToken(w, rest, out, Some(c));
        assert src[14..] == src[14..16];
      } else {
        TailUnfold(src, quad, i + 1);
        GroupToken(w, rest, out, Some(c));
        TailTokens(src, quad, i + 1, out + Pack(w), c);
        assert out + Pack(w) + src[2 * (i + 1)..] == out + src[2 * i..];
      }
    }
  }

  lemma TailEnd(src: seq<Byte>, quad: bool)
    requires |src| == 16
    ensures Tail(src, quad, 8) == ""
  {
  }

  /** What is read from a double colon on, whatever follows it. */
  lemma GapTokens(src: seq<Byte>, b: int, l: int)
    requires |src| == 16 && 0 <= b && 0 <= l && b + l <= 8
    ensures |Gap(src, b, l)| > 1 && Gap(src, b, l)[0] == ':'
    ensures Tokens(Gap(src, b, l)[1..], src[..2 * b], None) == Finish(src[..2 * b] + src[2 * (b + l)..], Some(2 * b))
  {
    GapUnfold(src, b, l);
    hide *;
    var out := src[..2 * b];
    var g := Gap(src, b, l)[1..];
    ColonToken(g, out);
    if b + l == 8 {
      assert g[1..] == "";
      EndToken(out, Some(2 * b));
      assert out + src[16..] == out;
    } else {
      TailTokens(src, Quad(src, b, l), b + l, out, 2 * b);
    }
  }

  lemma GapUnfold(src: seq<Byte>, b: int, l: int)
    requires |src| == 16 && 0 <= b && 0 <= l && b + l <= 8
    ensures |Gap(src, b, l)| > 1 && Gap(src, b, l)[0] == ':' && Gap(src, b, l)[1] == ':'
    ensures Gap(src, b, l)[1..] == if b + l == 8 then ":" else Tail(src, Quad(src, b, l), b + l)
  {
    if b + l < 8 { TailUnfold(src, Quad(src, b, l), b + l); }
    hide Tail, Quad;
  }

  lemma ColonToken(g: string, out: seq<Byte>)
    requires g != "" && g[0] == ':' && |out| <= 16
    ensures Tokens(g, out, None) == Tokens(g[1..], out, Some(|out|))
  {
    hide Octets, Finish;
  }

  lemma EndToken(out: seq<Byte>, colon: Option<nat>)
    requires |out| <= 16 && (colon.Some? ==> colon.value <= |out|)
    ensures Tokens("", out, colon) == Finish(out, colon)
  {
  }

  /** The bytes of the run are zeros: putting them back gives the address. */
  lemma RunIsZero(src: seq<Byte>, b: int, l: int)
    requires |src| == 16 && ZeroRun(GroupsOf(src), b, l) && l >= 1
    ensures Finish(src[..2 * b] + src[2 * (b + l)..], Some(2 * b)) == Some(src)
  {
    forall k | 2 * b <= k < 2 * (b + l)
      ensures src[k] == 0
    {
      assert GroupsOf(src)[k / 2] == 0;
    }
    hide GroupsOf, ZeroRun;
    PutBack(src, 2 * b, 2 * l);
  }

  lemma PutBack(src: seq<Byte>, c: nat, n: nat)
    requires |src| == 16 && c + n <= 16 && 0 < n && forall k | c <= k < c + n :: src[k] == 0
    ensures Finish(src[..c] + src[c + n..], Some(c)) == Some(src)
  {
    var out := src[..c] + src[c + n..];
    assert out[..c] == src[..c] && out[c..] == src[c + n..];
    assert src[c..c + n] == Zeros(n);
    assert src == src[..c] + src[c..c + n] + src[c + n..];
  }

  lemma LeadUnfold(src: seq<Byte>, b: int, l: int, i: nat)
    requires |src| == 16 && i <= 8 && (b >= 0 ==> i <= b && 0 <= l && b + l <= 8)
    ensures i == b ==> Lead(src, b, l, i) == Gap(src, b, l)
    ensures i != b && i == 8 ==> Lead(src, b, l, i) == ""
    ensures i != b && i < 8 ==> |Lead(src, b, l, i)| > 1 && Lead(src, b, l, i)[0] == ':'
    ensures i != b && i < 8 ==> Lead(src, b, l, i)[1..] == Show(true, GroupsOf(src)[i]) + Lead(src, b, l, i + 1)
  {
    hide Show, GroupsOf, Gap;
    if i != b && i < 8 {
      AfterColon(Show(true, GroupsOf(src)[i]), Lead(src, b, l, i + 1));
    }
  }

  /** What is read from the text of src with l groups at b left out for a double colon. */
  function Read(src: seq<Byte>, b: int, l: int): Option<seq<Byte>>
    requires |src| == 16 && (b >= 0 ==> 0 <= l && b + l <= 8)
  {
    if b < 0 then Some(src) else Finish(src[..2 * b] + src[2 * (b + l)..], Some(2 * b))
  }

  lemma {:induction false} LeadTokens(src: seq<Byte>, b: int, l: int, i: nat)
    requires |src| == 16 && i < 8 && (b >= 0 ==> i < b && 0 <= l && b + l <= 8)
    ensures Tokens(Show(true, GroupsOf(src)[i]) + Lead(src, b, l, i + 1), src[..2 * i], None) == Read(src, b, l)
    decreases 8 - i
  {
    hide GroupsOf, Show, Pack, Tokens, Lead, Gap, Finish;
    var w := GroupsOf(src)[i];
    var rest := Lead(src, b, l, i + 1);
    JoinPack(src, i);
    assert src[..2 * i] + Pack(w) == src[..2 * (i + 1)];
    LeadUnfold(src, b, l, i + 1);
    if i + 1 == b {
      GapTokens(src, b, l);
    } else if i == 7 {
      assert src[..16] == src;
      FullFinish(src);
    } else {
      LeadTokens(src, b, l, i + 1);
    }
    GroupToken(w, rest, src[..2 * i], None);
  }

  lemma FullFinish(src: seq<Byte>)
    requires |src| == 16
    ensures Finish(src, None) == Some(src)
  {
  }

  lemma GapFirst(src: seq<Byte>, l: int)
    requires |src| == 16 && 0 <= l <= 8
    ensures Parse6(Gap(src, 0, l)) == Read(src, 0, l)
  {
    GapTokens(src, 0, l);
    assert src[..0] == [];
    GapUnfold(src, 0, l);
    hide Tail, Tokens, GroupsOf, Finish, Gap;
  }

  lemma LeadFirst(src: seq<Byte>, b: int, l: int)
    requires |src| == 16 && b != 0 && (b >= 0 ==> 0 <= l && b + l <= 8)
    ensures Parse6(Show(true, GroupsOf(src)[0]) + Lead(src, b, l, 1)) == Read(src, b, l)
  {
    LeadTokens(src, b, l, 0);
    assert src[..0] == [];
    ShowValue(true, GroupsOf(src)[0]);
    hide Tokens, Show, Lead, Value, GroupsOf, Read;
    var t := Show(true, GroupsOf(src)[0]) + Lead(src, b, l, 1);
    assert DigitOf(true, t[0]) >= 0;
  }

  lemma TextTokens(src: seq<Byte>, b: int, l: int)
    requires |src| == 16 && (b >= 0 ==> 0 <= l && b + l <= 8)
    ensures Parse6(Text6(src, b, l)) == Read(src, b, l)
  {
    hide Parse6, Gap, Lead, Show, GroupsOf, Read;
    if b == 0 {
      GapFirst(src, l);
    } else {
      LeadFirst(src, b, l);
    }
  }

  /** Every address reads back from its text. */
  lemma RoundTrip6(src: seq<Byte>, b: int, l: int)
    requires |src| == 16 && -1 <= b && (b >= 0 ==> ZeroRun(GroupsOf(src), b, l) && l >= 2)
    ensures Parse6(Text6(src, b, l)) == Some(src)
  {
    TextTokens(src, b, l);
    if b >= 0 { RunIsZero(src, b, l); }
  }

  /**
   A double colon in a full address, which is documented as silently ignored: the groups after it are lost, and the
   address read is the one written only if they were zero.
   */
  lemma FullAddressColon(src: seq<Byte>, b: nat)
    requires |src| == 16 && b < 8
    ensures Parse6(Text6(src, b, 0)) == Some(src[..2 * b] + Zeros(16 - 2 * b))
    ensures Parse6(Text6(src, b, 0)) == Some(src) <==> forall k | 2 * b <= k < 16 :: src[k] == 0
  {
    hide *;
    TextTokens(src, b, 0);
    ReadFull(src, b);
    ZeroedTail(src, 2 * b);
  }

  lemma ReadFull(src: seq<Byte>, b: nat)
    requires |src| == 16 && b < 8
    ensures Read(src, b, 0) == Some(src[..2 * b] + Zeros(16 - 2 * b))
  {
    assert src[..2 * b] + src[2 * b..] == src;
  }

  lemma ZeroedTail(s: seq<Byte>, c: nat)
    requires c <= |s|
    ensures s[..c] + Zeros(|s| - c) == s <==> forall k | c <= k < |s| :: s[k] == 0
  {
    var r := s[..c] + Zeros(|s| - c);
    assert forall k | c <= k < |s| :: r[k] == 0;
    assert s == s[..c] + s[c..];
  }

  /** For instance 1:2:3:4:5:6:7::8, whose last group is lost. */
  lemma FullAddressColonExample()
    ensures var src: seq<Byte> := [0, 1, 0, 2, 0, 3, 0, 4, 0, 5, 0, 6, 0, 7, 0, 8];
      Parse6(Text6(src, 7, 0)) == Some([0, 1, 0, 2, 0, 3, 0, 4, 0, 5, 0, 6, 0, 7, 0, 0])
  {
    var src: seq<Byte> := [0, 1, 0, 2, 0, 3, 0, 4, 0, 5, 0, 6, 0, 7, 0, 8];
    hide *;
    FullAddressColon(src, 7);
    assert src[..14] + Zeros(2) == [0, 1, 0, 2, 0, 3, 0, 4, 0, 5, 0, 6, 0, 7, 0, 0];
  }

  // ---- the printer's loop ----

  predicate InRun(b: int, l: int, i: int) {
    b != -1 && b <= i < b + l
  }

  /** The text still to come before group i. */
  function ToCome(src: seq<Byte>, b: int, l: int, i: nat): string
    requires |src| == 16 && i <= 8 && -1 <= b && (b >= 0 ==> 2 <= l && b + l <= 8)
  {
    if b >= 0 && b < i then (if b + l == 8 then ":" else Tail(src, Quad(src, b, l), if i < b + l then b + l else i))
    else if i == 0 then Text6(src, b, l)
    else Lead(src, b, l, i)
  }

  lemma ToComeInRun(src: seq<Byte>, b: int, l: int, i: nat)
    requires |src| == 16 && i < 8 && -1 <= b && (b >= 0 ==> 2 <= l && b + l <= 8) && InRun(b, l, i)
    ensures ToCome(src, b, l, i) == (if i == b then ":" else "") + ToCome(src, b, l, i + 1)
  {
    if i == b {
      if b > 0 { LeadUnfold(src, b, l, i); }
      hide Tail, Lead;
    } else {
      assert "" + ToCome(src, b, l, i + 1) == ToCome(src, b, l, i + 1);
    }
  }

  lemma ToComeFirst(src: seq<Byte>, b: int, l: int)
    requires |src| == 16 && -1 <= b && (b >= 0 ==> 2 <= l && b + l <= 8) && b != 0
    ensures ToCome(src, b, l, 0) == Show(true, GroupsOf(src)[0]) + ToCome(src, b, l, 1)
  {
    hide Show, GroupsOf, Gap, Lead, Tail;
  }

  lemma ToComeTail(src: seq<Byte>, b: int, l: int, i: nat)
    requires |src| == 16 && i < 8 && 0 <= b && 2 <= l && b + l <= i
    ensures ToCome(src, b, l, i) == ":" +
      if i == 6 && Quad(src, b, l) then Dotted(src[12..])
      else Show(true, GroupsOf(src)[i]) + ToCome(src, b, l, i + 1)
  {
    hide Show, GroupsOf, Gap, Dotted, Lead, Text6, Quad;
    Regroup(":", Show(true, GroupsOf(src)[i]), Tail(src, Quad(src, b, l), i + 1));
  }

  lemma ToComeLead(src: seq<Byte>, b: int, l: int, i: nat)
    requires |src| == 16 && 0 < i < 8 && -1 <= b && (b >= 0 ==> 2 <= l && i < b && b + l <= 8)
    ensures ToCome(src, b, l, i) == ":" + (Show(true, GroupsOf(src)[i]) + ToCome(src, b, l, i + 1))
  {
    hide Show, GroupsOf, Gap, Tail, Text6, Quad;
    Regroup(":", Show(true, GroupsOf(src)[i]), Lead(src, b, l, i + 1));
  }

  lemma ToComeGroup(src: seq<Byte>, b: int, l: int, i: nat)
    requires |src| == 16 && i < 8 && -1 <= b && (b >= 0 ==> 2 <= l && b + l <= 8) && !InRun(b, l, i)
    ensures var colon := if i != 0 then ":" else "";
      ToCome(src, b, l, i) == colon +
        if i == 6 && Quad(src, b, l) then Dotted(src[12..])
        else Show(true, GroupsOf(src)[i]) + ToCome(src, b, l, i + 1)
  {
    if i == 0 {
      ToComeFirst(src, b, l);
      Regroup("", ToCome(src, b, l, 0), "");
    } else if b >= 0 && b < i {
      ToComeTail(src, b, l, i);
    } else {
      NoQuad(src, b, l, i);
      ToComeLead(src, b, l, i);
    }
    hide ToCome, Show, GroupsOf, Dotted, Quad;
  }

  lemma NoQuad(src: seq<Byte>, b: int, l: int, i: nat)
    requires |src| == 16 && (b < 0 || i < b)
    ensures !Quad(src, b, l)
  {
  }

  lemma Regroup(a: string, b: string, c: string)
    ensures a + b + c == a + (b + c)
    ensures "" + b == b
  {
  }

  /** Moving x from the text to come to the text already there. */
  lemma Moved(text: string, tmp: string, x: string, rest: string)
    requires tmp + (x + rest) == text
    ensures tmp + x + rest == text && |tmp| + |x| <= |text|
    ensures rest == "" ==> tmp + x == text
  {
    Regroup(tmp, x, rest);
  }

  const BUFFER: nat := 46   // sizeof "ffff:ffff:ffff:ffff:ffff:ffff:255.255.255.255"

  /** The formatting loop: the text, unless the buffer is too small for it. */
  method Format(src: seq<Byte>, ws: Groups, b: int, l: int) returns (r: Option<string>)
    requires |src| == 16 && ws == GroupsOf(src) && -1 <= b && (b >= 0 ==> 2 <= l && b + l <= 8)
    ensures r == if |Text6(src, b, l)| + 1 < BUFFER then Some(Text6(src, b, l)) else None
  {
    var tmp, i := "", 0;
    ghost var text := Text6(src, b, l);
    StartsWhole(src, b, l);
    assert "" + text == text;
    hide *;
    while i < 8 && |tmp| < BUFFER
      invariant 0 <= i <= 8 && tmp + ToCome(src, b, l, i) == text
      decreases 8 - i
    {
      var more := FormatOne(src, ws, b, l, i, tmp, text);
      if more.None? {
        return None;
      }
      tmp := more.value;
      if i == 6 && Quad(src, b, l) {
        return if |tmp| + 1 >= BUFFER then None else more;
      }
      i := i + 1;
    }
    r := FormatEnd(src, b, l, tmp, i, text);
  }

  /** One turn of the loop; the dotted quad is the last. */
  method FormatOne(src: seq<Byte>, ws: Groups, b: int, l: int, i: nat, tmp: string, ghost text: string) returns (r: Option<string>)
    requires |src| == 16 && ws == GroupsOf(src) && i < 8 && -1 <= b && (b >= 0 ==> 2 <= l && b + l <= 8)
    requires tmp + ToCome(src, b, l, i) == text && |tmp| < BUFFER
    ensures r.None? ==> |text| + 1 >= BUFFER
    ensures r.Some? ==> if i == 6 && Quad(src, b, l) then r.value == text else r.value + ToCome(src, b, l, i + 1) == text
  {
    hide ToCome, GroupsOf;
    if b != -1 && i >= b && i < b + l {
      r := FormatRun(src, b, l, i, tmp, text);
    } else {
      r := FormatGroup(src, ws, b, l, i, tmp, text);
    }
  }

  /** Inside the run: one colon at its start. */
  method FormatRun(src: seq<Byte>, b: int, l: int, i: nat, tmp: string, ghost text: string) returns (r: Option<string>)
    requires |src| == 16 && i < 8 && -1 <= b && (b >= 0 ==> 2 <= l && b + l <= 8)
    requires b != -1 && b <= i < b + l && tmp + ToCome(src, b, l, i) == text
    ensures if r.Some? then r.value + ToCome(src, b, l, i + 1) == text else |text| + 1 >= BUFFER
  {
    ToComeInRun(src, b, l, i);
    hide ToCome;
    if i != b {
      assert "" + ToCome(src, b, l, i + 1) == ToCome(src, b, l, i + 1);
      return Some(tmp);
    }
    Moved(text, tmp, ":", ToCome(src, b, l, i + 1));
    if |tmp| + 1 >= BUFFER {
      return None;
    }
    return Some(tmp + ":");
  }

  /** A group after a colon, or the dotted quad that ends the text. */
  method FormatGroup(src: seq<Byte>, ws: Groups, b: int, l: int, i: nat, tmp: string, ghost text: string) returns (r: Option<string>)
    requires |src| == 16 && ws == GroupsOf(src) && i < 8 && -1 <= b && (b >= 0 ==> 2 <= l && b + l <= 8)
    requires !InRun(b, l, i) && tmp + ToCome(src, b, l, i) == text && |tmp| < BUFFER
    ensures r.None? ==> |text| + 1 >= BUFFER
    ensures r.Some? ==> if i == 6 && Quad(src, b, l) then r.value == text else r.value + ToCome(src, b, l, i + 1) == text
  {
    ToComeGroup(src, b, l, i);
    ghost var rest := ToCome(src, b, l, i + 1);
    ghost var whole := ToCome(src, b, l, i);
    hide ToCome, Show, Dotted, GroupsOf;
    var tmp1 := tmp;
    if i != 0 {
      Moved(text, tmp, ":", whole[1..]);
      if |tmp| + 1 >= BUFFER {
        return None;
      }
      tmp1 := tmp + ":";
    }
    if i == 6 && b == 0 && (l == 6 || (l == 5 && ws[5] == 0xffff)) {
      r := Ntop4(src[12..], BUFFER - |tmp1|);
      assert tmp1 + Dotted(src[12..]) == text;
      if r.Some? {
        r := Some(tmp1 + r.value);
      }
      return;
    }
    var hex := Show(true, ws[i]);
    assert tmp1 + (hex + rest) == text;
    Moved(text, tmp1, hex, rest);
    if |tmp1| + |hex| >= BUFFER {
      return None;
    }
    return Some(tmp1 + hex);
  }

  /** A trailing run's second colon, and the terminator. */
  method FormatEnd(src: seq<Byte>, b: int, l: int, tmp: string, i: nat, ghost text: string) returns (r: Option<string>)
    requires |src| == 16 && -1 <= b && (b >= 0 ==> 2 <= l && b + l <= 8)
    requires i <= 8 && tmp + ToCome(src, b, l, i) == text && (i == 8 || |tmp| >= BUFFER)
    ensures r == if |text| + 1 < BUFFER then Some(text) else None
  {
    Trailing(src, b, l);
    hide ToCome;
    r := Some(tmp);
    if b != -1 && b + l == 8 {
      if |tmp| + 1 >= BUFFER {
        return None;
      }
      r := Some(tmp + ":");
    }
    if |r.value| + 1 >= BUFFER {
      return None;
    }
    assert i == 8;
    assert tmp + "" == tmp;
  }

  lemma StartsWhole(src: seq<Byte>, b: int, l: int)
    requires |src| == 16 && -1 <= b && (b >= 0 ==> 2 <= l && b + l <= 8)
    ensures ToCome(src, b, l, 0) == Text6(src, b, l)
  {
  }

  lemma Trailing(src: seq<Byte>, b: int, l: int)
    requires |src| == 16 && -1 <= b && (b >= 0 ==> 2 <= l && b + l <= 8)
    ensures ToCome(src, b, l, 8) == if b != -1 && b + l == 8 then ":" else ""
  {
  }

  /** r is the text with the best run shortened, or nothing if it does not fit. */
  ghost predicate Printed(src: seq<Byte>, size: nat, b: int, l: int, r: Option<string>)
    requires |src| == 16
  {
    && -1 <= b < 8 && BestRun(GroupsOf(src), b, l)
    && r == if |Text6(src, b, l)| + 1 <= size then Some(Text6(src, b, l)) else None
  }

  /** inet_ntop6: the text with the best run shortened, which reads back as the address; NULL only for want of room. */
  method Ntop6(src: seq<Byte>, size: nat) returns (r: Option<string>)
    requires |src| == 16
    ensures exists b, l :: Printed(src, size, b, l, r)
    ensures r.Some? ==> Parse6(r.value) == Some(src) && |r.value| + 1 <= size
    ensures size >= 46 ==> r.Some?
  {
    var words := ReadGroups(src);
    var ws: Groups := words[..];
    var b, l := FindRun(ws);
    TextFits(src, b, l);
    RoundTrip6(src, b, l);
    hide Text6, GroupsOf;
    var text := Format(src, ws, b, l);
    r := if |text.value| + 1 > size then None else text;
    assert Printed(src, size, b, l, r);
  }
}
