/** JavaScript values and built-ins the chat application relies on: ids that are
    numbers or strings, `toString`, truthiness, `String.prototype.trim`,
    `startsWith`, substring tests, and insertion-ordered Sets. */
module JsBase {

  datatype Option<T> = None | Some(value: T)

  /** An id as it travels through the application: a number (database rows,
      `user.id`) or a string (`chat.id.toString()`, temp message ids). JavaScript's
      `===` on such values is equality of this datatype: `5 !== "5"`. */
  datatype Id = Num(n: int) | Str(s: string)

  // ---------------------------------------------------------------------------
  // Number-to-string conversion (`String(n)` for integral numbers)

  function DigitChar(d: nat): (c: char)
    requires d < 10
    ensures '0' <= c <= '9'
  {
    (('0' as int) + d) as char
  }

  function DigitValue(c: char): (d: nat)
    requires '0' <= c <= '9'
    ensures d < 10 && DigitChar(d) == c
  {
    (c as int) - ('0' as int)
  }

  predicate IsDigits(s: string)
  {
    forall i :: 0 <= i < |s| ==> '0' <= s[i] <= '9'
  }

  /** Decimal rendering of a natural number, without leading zeros. */
  function NatToDecimal(n: nat): (r: string)
    ensures |r| > 0 && IsDigits(r)
    ensures r[0] == '0' <==> n == 0
    decreases n
  {
    if n < 10 then [DigitChar(n)] else NatToDecimal(n / 10) + [DigitChar(n % 10)]
  }

  /** The value of a string of decimal digits: the inverse of NatToDecimal. */
  function DecimalValue(s: string): nat
    requires IsDigits(s)
  {
    if s == [] then 0 else DecimalValue(s[..|s| - 1]) * 10 + DigitValue(s[|s| - 1])
  }

  lemma {:induction false} DecimalRoundTrip(n: nat)
    ensures DecimalValue(NatToDecimal(n)) == n
    decreases n
  {
    var r := NatToDecimal(n);
    if n >= 10 {
      DecimalRoundTrip(n / 10);
      assert r[..|r| - 1] == NatToDecimal(n / 10);
    }
  }

  function IntToString(i: int): (r: string)
    ensures i >= 0 ==> IsDigits(r)
    ensures i < 0 ==> |r| > 1 && r[0] == '-' && IsDigits(r[1..])
  {
    if i < 0 then "-" + NatToDecimal(-i) else NatToDecimal(i)
  }

  /** `id.toString()`, and also how an id becomes a property key of a plain object. */
  function ToString(id: Id): string
  {
    match id
    case Num(n) => IntToString(n)
    case Str(s) => s
  }

  /** Distinct numeric ids render to distinct strings, so personal rooms
      `u.toString()` of distinct numeric users are distinct. */
  lemma NumToStringInjective(a: int, b: int)
    requires ToString(Num(a)) == ToString(Num(b))
    ensures a == b
  {
    var sa, sb := ToString(Num(a)), ToString(Num(b));
    if a < 0 && b < 0 {
      assert NatToDecimal(-a) == sa[1..];
      assert NatToDecimal(-b) == sb[1..];
      NatToDecimalInjective(-a, -b);
    } else if a >= 0 && b >= 0 {
      NatToDecimalInjective(a, b);
    }
  }

  lemma NatToDecimalInjective(a: nat, b: nat)
    requires NatToDecimal(a) == NatToDecimal(b)
    ensures a == b
  {
    DecimalRoundTrip(a);
    DecimalRoundTrip(b);
  }

  /** JavaScript truthiness of an id: `0` and `""` are falsy. */
  predicate Truthy(id: Id)
  {
    match id
    case Num(n) => n != 0
    case Str(s) => s != ""
  }

  /** Truthiness of a value that may be `null`/`undefined`. */
  predicate TruthyOpt(o: Option<Id>)
  {
    o.Some? && Truthy(o.value)
  }

  // ---------------------------------------------------------------------------
  // Strings

  /** `s.length`: the number of UTF-16 code units, where a character outside
      the Basic Multilingual Plane takes two. */
  function Utf16Length(s: string): (r: nat)
    ensures |s| <= r <= 2 * |s|
  {
    if s == [] then 0
    else Utf16Length(s[..|s| - 1]) + (if s[|s| - 1] as int >= 0x10000 then 2 else 1)
  }

  /** A single emoji is two code units long, so it passes a `length >= 2` test. */
  lemma EmojiLength()
    ensures Utf16Length("\U{1F600}") == 2 && |"\U{1F600}"| == 1
  {
    assert "\U{1F600}"[..0] == [];
  }

  /** The characters `String.prototype.trim` removes (WhiteSpace and LineTerminator). */
  predicate IsSpace(c: char)
  {
    var k := c as int;
    k == 0x09 || k == 0x0A || k == 0x0B || k == 0x0C || k == 0x0D || k == 0x20 ||
    k == 0xA0 || k == 0x1680 || (0x2000 <= k <= 0x200A) || k == 0x2028 ||
    k == 0x2029 || k == 0x202F || k == 0x205F || k == 0x3000 || k == 0xFEFF
  }

  predicate IsBlank(s: string)
  {
    forall i :: 0 <= i < |s| ==> IsSpace(s[i])
  }

  function TrimStart(s: string): string
  {
    if s != [] && IsSpace(s[0]) then TrimStart(s[1..]) else s
  }

  function TrimEnd(s: string): string
  {
    if s != [] && IsSpace(s[|s| - 1]) then TrimEnd(s[..|s| - 1]) else s
  }

  /** `s.trim()` */
  function Trim(s: string): string
  {
    TrimEnd(TrimStart(s))
  }

  lemma {:induction false} TrimStartKeepsBlankness(s: string)
    ensures IsBlank(TrimStart(s)) <==> IsBlank(s)
    decreases |s|
  {
    if s != [] && IsSpace(s[0]) {
      TrimStartKeepsBlankness(s[1..]);
      assert IsBlank(s) <==> IsBlank(s[1..]) by {
        if IsBlank(s[1..]) {
          assert forall i :: 1 <= i < |s| ==> s[i] == s[1..][i - 1];
        }
      }
    }
  }

  lemma {:induction false} TrimEndEmptyIffBlank(s: string)
    ensures TrimEnd(s) == [] <==> IsBlank(s)
    decreases |s|
  {
    if s != [] {
      var init := s[..|s| - 1];
      if IsSpace(s[|s| - 1]) {
        TrimEndEmptyIffBlank(init);
        assert IsBlank(s) <==> IsBlank(init) by {
          if IsBlank(init) {
            assert forall i :: 0 <= i < |s| - 1 ==> s[i] == init[i];
          }
        }
      }
    }
  }

  /** `!s.trim()` holds exactly for strings made only of white space. */
  lemma TrimEmptyIffBlank(s: string)
    ensures Trim(s) == "" <==> IsBlank(s)
  {
    TrimStartKeepsBlankness(s);
    TrimEndEmptyIffBlank(TrimStart(s));
  }

  /** A string with a character that is not white space does not trim to "". */
  lemma NotBlankAt(s: string, i: int)
    requires 0 <= i < |s| && !IsSpace(s[i])
    ensures Trim(s) != ""
  {
    TrimEmptyIffBlank(s);
  }

  /** `s.startsWith(p)` */
  predicate StartsWith(s: string, p: string)
  {
    |p| <= |s| && s[..|p|] == p
  }

  /** An unanchored regular-expression test for a literal: `/p/.test(s)`. */
  predicate Contains(s: string, p: string)
    decreases |s|
  {
    StartsWith(s, p) || (s != [] && Contains(s[1..], p))
  }

  /** A string without the first character of `p` does not contain `p`. */
  lemma {:induction false} MissingFirstCharNotContained(s: string, p: string)
    requires p != [] && forall i :: 0 <= i < |s| ==> s[i] != p[0]
    ensures !Contains(s, p)
    decreases |s|
  {
    if s != [] {
      MissingFirstCharNotContained(s[1..], p);
    }
  }

  /** `p` occurs in `s` at position `i`. */
  ghost predicate OccursAt(s: string, p: string, i: int)
  {
    0 <= i <= |s| - |p| && s[i..i + |p|] == p
  }

  lemma {:induction false} ContainsIff(s: string, p: string)
    ensures Contains(s, p) <==> exists i :: OccursAt(s, p, i)
    decreases |s|
  {
    if s != [] {
      ContainsIff(s[1..], p);
      if Contains(s[1..], p) {
        var i :| OccursAt(s[1..], p, i);
        assert OccursAt(s, p, i + 1);
      }
      if i :| OccursAt(s, p, i) && i >= 1 {
        assert OccursAt(s[1..], p, i - 1);
      }
    }
    if StartsWith(s, p) {
      assert OccursAt(s, p, 0);
    }
    if i :| OccursAt(s, p, i) && i == 0 {
      assert StartsWith(s, p);
    }
  }

  /** `toLowerCase` on ASCII letters; other characters are kept. */
  function AsciiLower(s: string): (r: string)
    ensures |r| == |s|
    ensures forall i :: 0 <= i < |s| ==> r[i] == if 'A' <= s[i] <= 'Z' then (s[i] as int + 32) as char else s[i]
  {
    if s == [] then [] else
      var c := s[0];
      [if 'A' <= c <= 'Z' then (c as int + 32) as char else c] + AsciiLower(s[1..])
  }

  // ---------------------------------------------------------------------------
  // Insertion-ordered JavaScript Sets and Map key lists, as duplicate-free sequences

  ghost predicate NoDup<T>(s: seq<T>)
  {
    forall i, j :: 0 <= i < j < |s| ==> s[i] != s[j]
  }

  /** `set.add(x)`: a new element goes at the end; an existing one keeps its place. */
  function Insert<T(==,!new)>(s: seq<T>, x: T): (r: seq<T>)
    ensures forall y :: y in r <==> y in s || y == x
    ensures NoDup(s) ==> NoDup(r)
    ensures x in s ==> r == s
  {
    if x in s then s else s + [x]
  }

  /** `set.delete(x)`: the other elements keep their order. */
  function Delete<T(==,!new)>(s: seq<T>, x: T): (r: seq<T>)
    ensures forall y :: y in r <==> y in s && y != x
    ensures NoDup(s) ==> NoDup(r)
    ensures x !in s ==> r == s
  {
    if s == [] then []
    else if s[0] == x then NoDupTail(s); Delete(s[1..], x)
    else NoDupTail(s); NoDupPrepend(s[0], Delete(s[1..], x)); [s[0]] + Delete(s[1..], x)
  }

  lemma NoDupTail<T>(s: seq<T>)
    requires s != []
    ensures NoDup(s) ==> s[0] !in s[1..] && NoDup(s[1..])
  {
    if NoDup(s) {
      forall k | 0 <= k < |s[1..]| ensures s[1..][k] != s[0] {
        assert s[1..][k] == s[k + 1];
      }
    }
  }

  lemma NoDupPrepend<T>(x: T, r: seq<T>)
    ensures x !in r && NoDup(r) ==> NoDup([x] + r)
  {
  }

  /** `r` is `s` with some elements dropped and the rest kept in order. */
  ghost predicate IsSubsequence<T>(r: seq<T>, s: seq<T>)
    decreases |s|
  {
    if r == [] then true
    else if s == [] then false
    else if r[0] == s[0] then IsSubsequence(r[1..], s[1..])
    else IsSubsequence(r, s[1..])
  }

  lemma {:induction false} SubsequenceSkip<T>(r: seq<T>, x: T, s: seq<T>)
    requires IsSubsequence(r, s)
    ensures IsSubsequence(r, [x] + s)
    decreases |s|, 1
  {
    if r != [] && r[0] == x {
      SubsequenceTail(r, s);
      assert ([x] + s)[1..] == s;
    }
  }

  lemma {:induction false} SubsequenceTail<T>(r: seq<T>, s: seq<T>)
    requires r != [] && IsSubsequence(r, s)
    ensures IsSubsequence(r[1..], s)
    decreases |s|, 0
  {
    assert s != [];
    if r[0] == s[0] {
      SubsequenceSkip(r[1..], s[0], s[1..]);
    } else {
      SubsequenceTail(r, s[1..]);
      SubsequenceSkip(r[1..], s[0], s[1..]);
    }
    assert [s[0]] + s[1..] == s;
  }
}
