/**
 * The request fingerprint of `computeJA4H` (src/worker.ts:14-32): three blocks
 * `a_b_c` built from the method, the header names and the cookie. It is the
 * repository's own simplified variant of JA4H, modelled as the code writes it.
 */
module Ja4h {
  import opened Wrappers
  import opened Text
  import opened Hex

  /** The two header names left out of blocks a and b. */
  predicate Excluded(name: string) {
    name == "cookie" || name == "referer"
  }

  /** `headerNames.filter(h => h !== "cookie" && h !== "referer")`. */
  function Qualifying(names: seq<string>): (q: seq<string>)
    ensures |q| <= |names|
    ensures forall i :: 0 <= i < |q| ==> !Excluded(q[i]) && q[i] in names
  {
    if names == [] then []
    else (if Excluded(names[0]) then [] else [names[0]]) + Qualifying(names[1..])
  }

  /** Filtering a concatenation filters each part. */
  lemma {:induction false} QualifyingAppend(xs: seq<string>, ys: seq<string>)
    ensures Qualifying(xs + ys) == Qualifying(xs) + Qualifying(ys)
  {
    if xs == [] {
      assert xs + ys == ys;
    } else {
      var head := if Excluded(xs[0]) then [] else [xs[0]];
      assert (xs + ys)[0] == xs[0];
      assert (xs + ys)[1..] == xs[1..] + ys;
      assert Qualifying(xs + ys) == head + Qualifying(xs[1..] + ys);
      QualifyingAppend(xs[1..], ys);
      assert head + (Qualifying(xs[1..]) + Qualifying(ys)) == (head + Qualifying(xs[1..])) + Qualifying(ys);
    }
  }

  /**
   * Every occurrence of a kept name survives and no occurrence of `cookie` or
   * `referer` does.
   */
  lemma {:induction false} QualifyingCounts(names: seq<string>, n: string)
    ensures multiset(Qualifying(names))[n] == if Excluded(n) then 0 else multiset(names)[n]
  {
    if names != [] {
      QualifyingCounts(names[1..], n);
      assert names == [names[0]] + names[1..];
      assert multiset(names) == multiset([names[0]]) + multiset(names[1..]);
      var head := if Excluded(names[0]) then [] else [names[0]];
      assert multiset(Qualifying(names)) == multiset(head) + multiset(Qualifying(names[1..]));
    }
  }

  /** `r` is `s` with some elements removed and the others kept in their order. */
  predicate IsSubsequence(r: seq<string>, s: seq<string>)
    decreases |s|
  {
    if s == [] then r == []
    else (r != [] && r[0] == s[0] && IsSubsequence(r[1..], s[1..])) || IsSubsequence(r, s[1..])
  }

  /** The kept names keep their original order. */
  lemma {:induction false} QualifyingKeepsOrder(names: seq<string>)
    ensures IsSubsequence(Qualifying(names), names)
  {
    if names != [] {
      QualifyingKeepsOrder(names[1..]);
      var q := Qualifying(names[1..]);
      if !Excluded(names[0]) {
        assert ([names[0]] + q)[1..] == q;
      } else {
        assert Qualifying(names) == q;
      }
    }
  }

  /** A list that names neither `cookie` nor `referer` is kept whole. */
  lemma {:induction false} QualifyingIdentity(names: seq<string>)
    requires forall i :: 0 <= i < |names| ==> !Excluded(names[i])
    ensures Qualifying(names) == names
  {
    if names != [] {
      QualifyingIdentity(names[1..]);
      assert names == [names[0]] + names[1..];
    }
  }

  /**
   * `request.method.toLowerCase().charAt(0)`: the lower-cased first character of
   * the method, or nothing for an empty method.
   */
  function MethodChar(httpMethod: string): (r: string)
    ensures |r| == if httpMethod == [] then 0 else 1
    ensures httpMethod != [] ==> r[0] == LowerAscii(httpMethod[0])
  {
    var lower := ToLowerAscii(httpMethod);
    if lower == [] then "" else lower[..1]
  }

  /**
   * `headerNames.length.toString().padStart(2, "0")`: the number of kept names in
   * decimal, at least two digits wide, and exactly two wide only when the number
   * is below 100, so a larger count is never cut short; a leading `0` is padding
   * and appears only below 10.
   */
  function CountDigits(names: seq<string>): (r: string)
    ensures IsDecimal(r) && |r| >= 2
    ensures DigitsValue(r, 10) == |Qualifying(names)|
    ensures |r| == 2 <==> |Qualifying(names)| < 100
    ensures r[0] == '0' ==> |Qualifying(names)| < 10
  {
    var count := |Qualifying(names)|;
    var digits := NumberToString(count, 10);
    NumberToStringValue(count, 10);
    PadStartValue(digits, 2, 10);
    PadStartDecimal(digits, 2);
    DecimalWidth(count);
    PadStart(digits, 2, '0')
  }

  /**
   * Block a (src/worker.ts:18-21): the method character, when there is one, then
   * the count digits.
   */
  function BlockA(httpMethod: string, names: seq<string>): (r: string)
    ensures httpMethod != [] ==> r == [LowerAscii(httpMethod[0])] + CountDigits(names)
    ensures httpMethod == [] ==> r == CountDigits(names)
  {
    var m, digits := MethodChar(httpMethod), CountDigits(names);
    assert httpMethod != [] ==> m == [LowerAscii(httpMethod[0])];
    assert httpMethod == [] ==> m + digits == digits;
    m + digits
  }

  /**
   * Block b (src/worker.ts:24-25): hash12 of the kept names joined with `;`;
   * with 32-byte digests, twelve hexadecimal characters that read back to the
   * first six bytes of that digest.
   */
  function BlockB(names: seq<string>, sha: Sha256, utf8: Utf8): (r: string)
    ensures Sha256Like(sha) ==>
      var digest := sha(utf8(Join(Qualifying(names), ';')));
      |r| == 12 && IsLowerHex(r) && HexDecode(r) == digest[..6]
  {
    Hash12(sha, utf8(Join(Qualifying(names), ';')))
  }

  const NoCookie: string := "000000000000"

  /**
   * Block c (src/worker.ts:28-29): a missing cookie header reads as `""`, and an
   * empty string is falsy, so both give the sentinel; any other cookie gives
   * hash12 of its encoding, twelve hexadecimal characters with 32-byte digests.
   */
  function BlockC(cookie: Option<string>, sha: Sha256, utf8: Utf8): (r: string)
    ensures cookie == None || cookie == Some("") ==> r == NoCookie
    ensures cookie.Some? && cookie.value != "" ==> r == Hash12(sha, utf8(cookie.value))
    ensures Sha256Like(sha) ==> |r| == 12 && IsLowerHex(r)
  {
    var cookieRaw := cookie.GetOr("");
    if cookieRaw != "" then Hash12(sha, utf8(cookieRaw)) else NoCookie
  }

  /**
   * `computeJA4H` (src/worker.ts:14-32). With 32-byte digests the fingerprint is
   * `a_b_c` with twelve-character b and c, so it determines each of its blocks.
   */
  function ComputeJa4h(httpMethod: string, names: seq<string>, cookie: Option<string>,
                       sha: Sha256, utf8: Utf8): (r: string)
    ensures Sha256Like(sha) ==>
      SplitJa4h(r) == Some((BlockA(httpMethod, names), BlockB(names, sha, utf8), BlockC(cookie, sha, utf8)))
  {
    var a, b, c := BlockA(httpMethod, names), BlockB(names, sha, utf8), BlockC(cookie, sha, utf8);
    assert |b| == 12 && |c| == 12 ==> SplitJa4h(a + "_" + b + "_" + c) == Some((a, b, c)) by {
      if |b| == 12 && |c| == 12 { SplitBlocks(a, b, c); }
    }
    a + "_" + b + "_" + c
  }

  /** Takes a fingerprint apart again: the last 25 characters hold `_b_c`. */
  function SplitJa4h(s: string): Option<(string, string, string)>
  {
    if |s| >= 26 && s[|s| - 26] == '_' && s[|s| - 13] == '_'
    then Some((s[..|s| - 26], s[|s| - 25..|s| - 13], s[|s| - 12..]))
    else None
  }

  lemma SplitBlocks(a: string, b: string, c: string)
    requires |b| == 12 && |c| == 12
    ensures SplitJa4h(a + "_" + b + "_" + c) == Some((a, b, c))
  {
    var s := a + "_" + b + "_" + c;
    assert s[..|s| - 26] == a;
    assert s[|s| - 25..|s| - 13] == b;
    assert s[|s| - 12..] == c;
  }

  /**
   * Two requests with the same method whose fingerprints agree have the same
   * number of kept header names.
   */
  lemma Ja4hDeterminesCount(httpMethod: string, names1: seq<string>, cookie1: Option<string>,
                            names2: seq<string>, cookie2: Option<string>, sha: Sha256, utf8: Utf8)
    requires Sha256Like(sha)
    requires ComputeJa4h(httpMethod, names1, cookie1, sha, utf8) == ComputeJa4h(httpMethod, names2, cookie2, sha, utf8)
    ensures |Qualifying(names1)| == |Qualifying(names2)|
  {
    var m := MethodChar(httpMethod);
    assert BlockA(httpMethod, names1) == BlockA(httpMethod, names2);
    assert CountDigits(names1) == BlockA(httpMethod, names1)[|m|..];
    assert CountDigits(names2) == BlockA(httpMethod, names2)[|m|..];
  }

  /** A `cookie` or `referer` name anywhere in the header list changes nothing. */
  lemma Ja4hIgnoresExcluded(httpMethod: string, before: seq<string>, x: string, after: seq<string>,
                            cookie: Option<string>, sha: Sha256, utf8: Utf8)
    requires Excluded(x)
    ensures ComputeJa4h(httpMethod, before + [x] + after, cookie, sha, utf8)
         == ComputeJa4h(httpMethod, before + after, cookie, sha, utf8)
  {
    QualifyingAppend(before + [x], after);
    QualifyingAppend(before, [x]);
    QualifyingAppend(before, after);
    assert Qualifying([x]) == [];
    assert Qualifying(before + [x]) == Qualifying(before);
  }

  /** HTTP header names are non-empty tokens, and `;` is not a token character. */
  predicate TokenNames(names: seq<string>) {
    forall i :: 0 <= i < |names| ==> names[i] != "" && ';' !in names[i]
  }

  /**
   * For token header names, the text block b hashes determines the kept names
   * and their order, including the case where no name is kept.
   */
  lemma BlockBMessageInjective(names1: seq<string>, names2: seq<string>)
    requires TokenNames(names1) && TokenNames(names2)
    requires Join(Qualifying(names1), ';') == Join(Qualifying(names2), ';')
    ensures Qualifying(names1) == Qualifying(names2)
  {
    var q1, q2 := Qualifying(names1), Qualifying(names2);
    assert TokenNames(q1) && TokenNames(q2);
    if q1 != [] && q2 != [] {
      SplitJoin(q1, ';');
      SplitJoin(q2, ';');
    }
  }

  /**
   * A POST carrying `host` and `user-agent` and no cookie has the fingerprint
   * `p02_<twelve hex>_000000000000`.
   */
  lemma Ja4hExample(sha: Sha256, utf8: Utf8)
    requires Sha256Like(sha)
    ensures var f := ComputeJa4h("POST", ["host", "user-agent"], None, sha, utf8);
            |f| == 29 && f[..4] == "p02_" && f[16..] == "_000000000000" && IsLowerHex(f[4..16])
  {
    var names := ["host", "user-agent"];
    ExampleBlockA();
    var b := BlockB(names, sha, utf8);
    assert |b| == 12 && IsLowerHex(b);
    assert BlockC(None, sha, utf8) == NoCookie;
    ExampleLayout(b);
  }

  lemma ExampleBlockA()
    ensures BlockA("POST", ["host", "user-agent"]) == "p02"
  {
    var names := ["host", "user-agent"];
    assert Qualifying(names) == names by {
      assert names[1..] == ["user-agent"] && names[1..][1..] == [];
      assert Qualifying(names[1..][1..]) == [];
      assert Qualifying(names[1..]) == ["user-agent"];
    }
    assert |Qualifying(names)| == 2;
    assert CountDigits(names) == "02" by {
      var digits := NumberToString(2, 10);
      assert digits == [DigitChar(2)] == "2";
      assert CountDigits(names) == PadStart(digits, 2, '0');
      assert Repeat('0', 1) == "0";
      assert PadStart(digits, 2, '0') == Repeat('0', 1) + digits;
    }
    assert MethodChar("POST") == "p" by {
      assert ToLowerAscii("POST")[0] == LowerAscii('P') == 'p';
    }
  }

  lemma ExampleLayout(b: string)
    requires |b| == 12
    ensures var f := "p02" + "_" + b + "_" + NoCookie;
            |f| == 29 && f[..4] == "p02_" && f[4..16] == b && f[16..] == "_000000000000"
  {
    var f := "p02" + "_" + b + "_" + NoCookie;
    assert f == "p02_" + (b + "_" + NoCookie);
  }
}
