/** Reading part of an object: the `Range` header as the server parses it, and the bytes it selects. */
module S3Range {
  import opened ByteStrings

  const USIZE_MAX := 0xFFFF_FFFF_FFFF_FFFF

  datatype Selection =
    | Selected(body: Bytes)
    | InvalidRange
    | UnsupportedUnit
    | OutOfBounds  // slicing panics

  /** The text before and after the first c, if there is one. */
  function Cut(s: string, c: char): Option<(string, string)> {
    if s == [] then None
    else if s[0] == c then Some(([], s[1..]))
    else
      match Cut(s[1..], c)
      case None => None
      case Some(p) => Some(([s[0]] + p.0, p.1))
  }

  predicate IsDigit(c: char) {
    '0' <= c <= '9'
  }

  function Digits(s: string): Option<nat> {
    if s == [] then Some(0)
    else
      var last := s[|s| - 1];
      match Digits(s[..|s| - 1])
      case None => None
      case Some(n) => if IsDigit(last) then Some(10 * n + (last - '0') as nat) else None
  }

  /** `str::parse::<usize>`: one optional plus sign, at least one digit, no overflow. */
  function ParseUsize(s: string): Option<nat> {
    var digits := if s != [] && s[0] == '+' then s[1..] else s;
    if digits == [] then None
    else
      match Digits(digits)
      case None => None
      case Some(n) => if n <= USIZE_MAX then Some(n) else None
  }

  /** A bound that may be left out; None if it does not parse. */
  function ParseBound(s: string): Option<Option<nat>> {
    if s == [] then Some(None)
    else
      match ParseUsize(s)
      case None => None
      case Some(n) => Some(Some(n))
  }

  /** `Bytes::slice`, which panics outside the body. */
  function Slice(body: Bytes, first: Option<nat>, last: Option<nat>): Selection {
    match (first, last)
    case (Some(a), Some(b)) => if a <= b + 1 <= |body| then Selected(body[a..b + 1]) else OutOfBounds
    case (Some(a), None) => if a <= |body| then Selected(body[a..]) else OutOfBounds
    case (None, Some(n)) => if n <= |body| then Selected(body[|body| - n..]) else OutOfBounds
    case (None, None) => Selected(body)
  }

  function ReadRange(body: Bytes, range: string): Selection {
    var unit := Cut(range, '=');
    var name := if unit.Some? then unit.value.0 else range;
    if name != "bytes" then UnsupportedUnit
    else if unit.None? then InvalidRange
    else
      // text after a second '=' is ignored
      var more := Cut(unit.value.1, '=');
      match Cut(if more.Some? then more.value.0 else unit.value.1, '-')
      case None => InvalidRange
      case Some(bounds) =>
        var first := ParseBound(bounds.0);
        if first.None? then InvalidRange
        else
          var last := ParseBound(bounds.1);
          if last.None? then InvalidRange else Slice(body, first.value, last.value)
  }

  // ---- what a spelled-out range selects --------------------------------------------------

  function Decimal(n: nat): string {
    (if n < 10 then [] else Decimal(n / 10)) + [(n % 10) as char + '0']
  }

  function SpellBound(x: Option<nat>): string {
    if x.Some? then Decimal(x.value) else []
  }

  function Spell(first: Option<nat>, last: Option<nat>): string {
    "bytes" + "=" + (SpellBound(first) + "-" + SpellBound(last))
  }

  lemma {:induction false} CutAt(a: string, c: char, b: string)
    requires c !in a
    ensures Cut(a + [c] + b, c) == Some((a, b))
  {
    var s := a + [c] + b;
    if a == [] {
      assert s[1..] == b;
    } else {
      assert s[1..] == a[1..] + [c] + b;
      CutAt(a[1..], c, b);
      assert [a[0]] + a[1..] == a;
    }
  }

  lemma {:induction false} CutNone(s: string, c: char)
    requires c !in s
    ensures Cut(s, c).None?
  {
    if s != [] { CutNone(s[1..], c); }
  }

  lemma {:induction false} DecimalParses(n: nat)
    ensures Decimal(n) != [] && Digits(Decimal(n)) == Some(n)
    ensures forall c :: c in Decimal(n) ==> IsDigit(c)
  {
    if n >= 10 { DecimalParses(n / 10); }
    assert Decimal(n)[..|Decimal(n)| - 1] == if n < 10 then [] else Decimal(n / 10);
  }

  lemma BoundParses(x: Option<nat>)
    ensures ParseBound(SpellBound(x)) == if x.Some? && x.value > USIZE_MAX then None else Some(x)
    ensures forall c :: c in SpellBound(x) ==> IsDigit(c)
  {
    if x.Some? {
      DecimalParses(x.value);
      assert Decimal(x.value)[0] in Decimal(x.value);
    }
  }

  predicate Fits(x: Option<nat>) {
    x.Some? ==> x.value <= USIZE_MAX
  }

  /** A spelled-out range selects exactly the bytes it names, if its bounds fit a machine word. */
  lemma RangeRoundTrip(body: Bytes, first: Option<nat>, last: Option<nat>)
    ensures ReadRange(body, Spell(first, last)) ==
      if Fits(first) && Fits(last) then Slice(body, first, last) else InvalidRange
  {
    var a, b := SpellBound(first), SpellBound(last);
    BoundParses(first);
    BoundParses(last);
    var pair := a + "-" + b;
    CutAt("bytes", '=', pair);
    CutNone(pair, '=');
    CutAt(a, '-', b);
  }

  /** What section 14.1.2 of RFC 9110 has a range select, if it can be satisfied: a last position
      beyond the body, or a suffix longer than it, is cut back to the body. */
  function Standard(body: Bytes, first: Option<nat>, last: Option<nat>): Option<Bytes> {
    match (first, last)
    case (Some(a), Some(b)) =>
      if a > b || a >= |body| then None else Some(if b < |body| then body[a..b + 1] else body[a..])
    case (Some(a), None) => if a < |body| then Some(body[a..]) else None
    case (None, Some(n)) => if n == 0 then None else Some(if n <= |body| then body[|body| - n..] else body)
    case (None, None) => None
  }

  /** The server answers a satisfiable range as the standard says exactly when the range does not
      reach beyond the body; otherwise it panics. */
  lemma RangeIsStandardIff(body: Bytes, first: Option<nat>, last: Option<nat>)
    requires Standard(body, first, last).Some? && Fits(first) && Fits(last)
    ensures var s := ReadRange(body, Spell(first, last));
      var beyond := last.Some? && if first.Some? then last.value >= |body| else last.value > |body|;
      && (s == Selected(Standard(body, first, last).value) <==> !beyond)
      && (s == OutOfBounds <==> beyond)
  {
    RangeRoundTrip(body, first, last);
  }

  /** A range the standard cannot satisfy should be refused or ignored.  The server answers some of them:
      one without bounds with the whole body, and with no bytes an empty suffix, an open range that
      starts right behind the body, and a range inside it that ends just before it starts.  On all
      others it panics. */
  lemma UnsatisfiableAnsweredIff(body: Bytes, first: Option<nat>, last: Option<nat>)
    requires Standard(body, first, last).None? && Fits(first) && Fits(last)
    ensures var s := ReadRange(body, Spell(first, last));
      var answered := first.None? || (first.value <= |body| && (last.Some? ==> first.value == last.value + 1));
      s == if !answered then OutOfBounds else Selected(if first.None? && last.None? then body else [])
  {
    RangeRoundTrip(body, first, last);
    assert body[|body|..] == [];
  }
}
