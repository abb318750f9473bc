/** Scrubbing of IPv4 addresses from text: a leftmost-first regular expression replaced everywhere. */
module Scrubbing {
  import opened Wrappers
  import opened Decimal

  const SCRUBBED: string := "[scrubbed]"

  predicate At(s: string, i: nat, lo: char, hi: char) {
    i < |s| && lo <= s[i] <= hi
  }

  /** The lengths at which the octet pattern matches at the start, in the order it tries them. */
  function OctetLengths(s: string): (lengths: seq<nat>)
    ensures forall i :: 0 <= i < |lengths| ==> 0 < lengths[i] <= |s|
  {
    (if At(s, 0, '2', '2') && At(s, 1, '5', '5') && At(s, 2, '0', '5') then [3] else [])
    + (if At(s, 0, '2', '2') && At(s, 1, '0', '4') && At(s, 2, '0', '9') then [3] else [])
    + (if At(s, 0, '1', '1') && At(s, 1, '0', '9') && At(s, 2, '0', '9') then [3] else [])
    + (if At(s, 0, '1', '9') && At(s, 1, '0', '9') then [2] else [])
    + (if At(s, 0, '0', '9') then [1] else [])
  }

  /** The length of the first match at the start, of `octets` octets joined by dots. */
  function MatchLength(s: string, octets: nat): (r: Option<nat>)
    requires octets > 0
    ensures r.Some? ==> 0 < r.value <= |s|
    decreases octets, 1, 0
  {
    FirstOf(s, OctetLengths(s), octets)
  }

  function FirstOf(s: string, lengths: seq<nat>, octets: nat): (r: Option<nat>)
    requires octets > 0 && forall i :: 0 <= i < |lengths| ==> 0 < lengths[i] <= |s|
    ensures r.Some? ==> 0 < r.value <= |s|
    decreases octets, 0, |lengths|
  {
    if lengths == [] then None
    else
      var n := lengths[0];
      if octets == 1 then Some(n)
      else if n < |s| && s[n] == '.' && MatchLength(s[n + 1..], octets - 1).Some?
      then Some(n + 1 + MatchLength(s[n + 1..], octets - 1).value)
      else FirstOf(s, lengths[1..], octets)
  }

  /** An IPv4 address has four octets. */
  function Matched(s: string): (r: Option<nat>)
    ensures r.Some? ==> 0 < r.value <= |s|
  {
    MatchLength(s, 4)
  }

  function SafeClean(s: string): string {
    if s == "" then ""
    else
      match Matched(s)
      case None => [s[0]] + SafeClean(s[1..])
      case Some(n) => SCRUBBED + SafeClean(s[n..])
  }

  // ---------------------------------------------------------------- what an address is

  /** A decimal number up to 255 without leading zeros. */
  predicate IsOctet(t: string) {
    && 1 <= |t| <= 3
    && AllDigits(t)
    && (|t| > 1 ==> t[0] != '0')
    && Value(t) <= 255
  }

  /** `octets` octets joined by dots. */
  ghost predicate IsAddress(t: string, octets: nat)
    requires octets > 0
    decreases octets
  {
    if octets == 1 then IsOctet(t) else exists n :: DotAt(t, n) && IsAddress(t[n + 1..], octets - 1)
  }

  ghost predicate IsIPv4(t: string) {
    IsAddress(t, 4)
  }

  ghost predicate DotAt(t: string, n: int) {
    0 <= n < |t| && t[n] == '.' && IsOctet(t[..n])
  }

  /** The pattern's alternatives are exactly the octets. */
  lemma OctetsExact(s: string, n: nat)
    ensures n in OctetLengths(s) <==> n <= |s| && IsOctet(s[..n])
  {
    if n <= |s| && 1 <= n <= 3 && AllDigits(s[..n]) {
      ValueOf(s[..n]);
    }
  }

  // ---------------------------------------------------------------- the matcher finds addresses

  lemma AddressJoins(s: string, n: nat, m: nat, octets: nat)
    requires octets > 0 && n < |s| && s[n] == '.' && IsOctet(s[..n]) && n + 1 + m <= |s|
    requires IsAddress(s[n + 1..][..m], octets)
    ensures IsAddress(s[..n + 1 + m], octets + 1)
  {
    var t := s[..n + 1 + m];
    assert t[..n] == s[..n] && t[n + 1..] == s[n + 1..][..m];
    assert DotAt(t, n);
  }

  lemma {:induction false} FirstSound(s: string, lengths: seq<nat>, octets: nat)
    requires octets > 0 && AllOctets(s, lengths)
    ensures var r := FirstOf(s, lengths, octets); r.Some? ==> IsAddress(s[..r.value], octets)
    decreases octets, 0, |lengths|
  {
    if lengths == [] {
      hide MatchLength, IsAddress, AllOctets;
    } else {
      hide *;
      OneOctet(s, lengths);
      FirstTurn(s, lengths, octets);
      var n := lengths[0];
      if octets > 1 {
        if n < |s| && s[n] == '.' && MatchLength(s[n + 1..], octets - 1).Some? {
          var rest := s[n + 1..];
          MatchSound(rest, octets - 1);
          AddressJoins(s, n, MatchLength(rest, octets - 1).value, octets - 1);
        } else {
          FirstSound(s, lengths[1..], octets);
        }
      }
    }
  }

  predicate AllOctets(s: string, lengths: seq<nat>) {
    forall i :: 0 <= i < |lengths| ==> 0 < lengths[i] <= |s| && IsOctet(s[..lengths[i]])
  }

  lemma OneOctet(s: string, lengths: seq<nat>)
    requires lengths != [] && AllOctets(s, lengths)
    ensures AllOctets(s, lengths[1..]) && 0 < lengths[0] <= |s| && IsOctet(s[..lengths[0]])
    ensures IsAddress(s[..lengths[0]], 1)
    ensures forall i :: 0 <= i < |lengths| ==> 0 < lengths[i] <= |s|
    ensures forall i :: 0 <= i < |lengths[1..]| ==> 0 < lengths[1..][i] <= |s|
  {
    hide IsOctet;
  }

  /** One turn through the alternatives. */
  lemma FirstTurn(s: string, lengths: seq<nat>, octets: nat)
    requires octets > 0 && lengths != [] && AllOctets(s, lengths)
    ensures var n := lengths[0];
            FirstOf(s, lengths, octets) ==
            if octets == 1 then Some(n)
            else if n < |s| && s[n] == '.' && MatchLength(s[n + 1..], octets - 1).Some?
            then Some(n + 1 + MatchLength(s[n + 1..], octets - 1).value)
            else FirstOf(s, lengths[1..], octets)
  {
    hide MatchLength;
  }

  lemma {:induction false} MatchSound(s: string, octets: nat)
    requires octets > 0
    ensures var r := MatchLength(s, octets); r.Some? ==> IsAddress(s[..r.value], octets)
    decreases octets, 1, 0
  {
    hide OctetLengths, IsAddress, FirstOf;
    LengthsOctets(s);
    FirstSound(s, OctetLengths(s), octets);
  }

  lemma FirstDot(s: string, k: nat, octets: nat) returns (n: nat)
    requires octets > 1 && k <= |s| && IsAddress(s[..k], octets)
    ensures n < k && s[n] == '.' && IsOctet(s[..n]) && IsAddress(s[n + 1..][..k - n - 1], octets - 1)
  {
    var t := s[..k];
    n :| DotAt(t, n) && IsAddress(t[n + 1..], octets - 1);
    assert t[..n] == s[..n] && t[n + 1..] == s[n + 1..][..k - n - 1];
    hide IsAddress;
  }

  lemma MatchedExact(s: string, k: nat)
    ensures var r := Matched(s); r.Some? ==> IsIPv4(s[..r.value])
    ensures k <= |s| && IsIPv4(s[..k]) ==> Matched(s).Some?
  {
    MatchSound(s, 4);
    if k <= |s| && IsIPv4(s[..k]) {
      MatchLongest(s, k, 4);
    }
  }

  lemma IPv4Chars(t: string)
    ensures IsIPv4(t) ==> t != "" && forall i :: 0 <= i < |t| ==> AddressChar(t[i])
  {
    if IsIPv4(t) {
      AddressChars(t, 4);
    }
  }

  // ---------------------------------------------------------------- the longest match

  lemma LongestFirst(s: string, n: nat)
    ensures n in OctetLengths(s) ==> OctetLengths(s)[0] >= n
  {
  }

  /** Where the dot after an octet stands, the alternative that reaches it is taken. */
  lemma {:induction false} FirstAt(s: string, lengths: seq<nat>, octets: nat, n: nat)
    requires octets > 1 && AllOctets(s, lengths) && n in lengths && n < |s| && s[n] == '.'
    requires MatchLength(s[n + 1..], octets - 1).Some?
    ensures FirstOf(s, lengths, octets) == Some(n + 1 + MatchLength(s[n + 1..], octets - 1).value)
  {
    hide MatchLength, FirstOf, IsAddress;
    OneOctet(s, lengths);
    FirstTurn(s, lengths, octets);
    if lengths[0] != n {
      OneDot(s, lengths, n);
      FirstAt(s, lengths[1..], octets, n);
    }
  }

  lemma OneDot(s: string, lengths: seq<nat>, n: nat)
    requires AllOctets(s, lengths) && n in lengths && n < |s| && s[n] == '.' && lengths[0] != n
    ensures n in lengths[1..] && (lengths[0] < |s| ==> s[lengths[0]] != '.')
  {
    var k :| 0 <= k < |lengths| && lengths[k] == n;
    assert lengths[1..][k - 1] == n;
    var m := lengths[0];
    assert forall i :: 0 <= i < n ==> s[i] == s[..n][i];
    assert forall i :: 0 <= i < m ==> s[i] == s[..m][i];
  }

  lemma LengthsOctets(s: string)
    ensures AllOctets(s, OctetLengths(s))
  {
    hide OctetLengths, IsOctet;
    forall i | 0 <= i < |OctetLengths(s)| ensures IsOctet(s[..OctetLengths(s)[i]]) {
      OctetsExact(s, OctetLengths(s)[i]);
    }
  }

  lemma {:induction false} MatchLongest(s: string, k: nat, octets: nat)
    requires octets > 0 && k <= |s| && IsAddress(s[..k], octets)
    ensures MatchLength(s, octets).Some? && MatchLength(s, octets).value >= k
    decreases octets
  {
    hide OctetLengths, AllOctets, IsOctet;
    if octets == 1 {
      OctetsExact(s, k);
      LongestFirst(s, k);
    } else {
      hide FirstOf, IsAddress;
      var n := FirstDot(s, k, octets);
      MatchLongest(s[n + 1..], k - n - 1, octets - 1);
      OctetsExact(s, n);
      LengthsOctets(s);
      FirstAt(s, OctetLengths(s), octets, n);
    }
  }

  ghost predicate Begins(s: string, k: nat) {
    k <= |s| && IsIPv4(s[..k])
  }

  /** The longest address with which the text begins. */
  ghost predicate Longest(s: string, k: nat) {
    Begins(s, k) && forall m: nat :: m > k ==> !Begins(s, m)
  }

  /**
   * At each place the longest address that begins there is replaced, and where none begins the
   * character stays.
   */
  lemma CleanedExact(s: string, k: nat)
    ensures SafeClean("") == ""
    ensures s != "" && !(exists n: nat :: Begins(s, n)) ==> SafeClean(s) == [s[0]] + SafeClean(s[1..])
    ensures Longest(s, k) ==> s != "" && SafeClean(s) == "[scrubbed]" + SafeClean(s[k..])
  {
    hide Matched, IsIPv4;
    if Longest(s, k) {
      IPv4Chars(s[..k]);
      MatchedLongest(s, k);
      MatchedExact(s, k);
      assert Begins(s, Matched(s).value);
    } else if s != "" && !exists n: nat :: Begins(s, n) {
      MatchedExact(s, 0);
      assert Matched(s).Some? ==> Begins(s, Matched(s).value);
    }
  }

  lemma MatchedLongest(s: string, k: nat)
    requires Begins(s, k)
    ensures Matched(s).Some? && Matched(s).value >= k
  {
    hide MatchLength, IsAddress;
    MatchLongest(s, k, 4);
  }

  // ---------------------------------------------------------------- the cleaned text

  predicate AddressChar(c: char) {
    IsDigit(c) || c == '.'
  }

  lemma {:induction false} AddressChars(t: string, octets: nat)
    requires octets > 0 && IsAddress(t, octets)
    ensures t != "" && forall i :: 0 <= i < |t| ==> AddressChar(t[i])
    decreases octets
  {
    if octets > 1 {
      var n :| DotAt(t, n) && IsAddress(t[n + 1..], octets - 1);
      AddressChars(t[n + 1..], octets - 1);
      forall i | 0 <= i < |t| ensures AddressChar(t[i]) {
        if i < n {
          assert t[i] == t[..n][i];
        } else if i > n {
          assert t[i] == t[n + 1..][i - n - 1];
        }
      }
    }
  }

  lemma CleanHit(s: string)
    requires s != "" && Matched(s).Some?
    ensures var n := Matched(s).value;
            SafeClean(s) == SCRUBBED + SafeClean(s[n..]) && !AddressChar(SafeClean(s)[0])
  {
    hide Matched;
  }

  lemma CleanMiss(s: string)
    requires s != "" && Matched(s).None?
    ensures SafeClean(s) == [s[0]] + SafeClean(s[1..])
  {
    hide Matched;
  }

  /** Where the cleaned text begins with address characters, it is the original text. */
  lemma {:induction false} CleanPrefix(s: string, m: nat)
    requires m <= |SafeClean(s)| && forall i :: 0 <= i < m ==> AddressChar(SafeClean(s)[i])
    ensures m <= |s| && SafeClean(s)[..m] == s[..m]
    decreases |s|
  {
    if m > 0 && s != "" {
      hide *;
      if Matched(s).Some? {
        CleanHit(s);
      } else {
        CleanMiss(s);
        PrefixRest(SafeClean(s), s[0], SafeClean(s[1..]), m);
        CleanPrefix(s[1..], m - 1);
        PrefixOf(s, SafeClean(s[1..]), m);
      }
    } else {
      hide Matched;
    }
  }

  lemma PrefixOf(s: string, rest: string, m: nat)
    requires s != "" && 0 < m <= |s| && m <= |rest| + 1 && rest[..m - 1] == s[1..][..m - 1]
    ensures ([s[0]] + rest)[..m] == s[..m]
  {
    PrefixCons(s[0], rest, s[1..], m);
    assert s == [s[0]] + s[1..];
  }

  lemma PrefixRest(out: string, c: char, rest: string, m: nat)
    requires 0 < m <= |out| && out == [c] + rest && forall i :: 0 <= i < m ==> AddressChar(out[i])
    ensures forall i :: 0 <= i < m - 1 ==> AddressChar(rest[i])
  {
    assert forall i :: 0 <= i < m - 1 ==> rest[i] == out[i + 1];
  }

  lemma PrefixCons(c: char, a: string, b: string, m: nat)
    requires 0 < m <= |a| + 1 && m <= |b| + 1 && a[..m - 1] == b[..m - 1]
    ensures ([c] + a)[..m] == ([c] + b)[..m]
  {
    assert ([c] + a)[..m] == [c] + a[..m - 1];
    assert ([c] + b)[..m] == [c] + b[..m - 1];
  }

  lemma SomethingCleaned(s: string, i: nat, j: nat, t: string)
    ensures PartOf(s, i, j, t) && IsIPv4(t) ==> s != ""
  {
    hide IsIPv4;
    if IsIPv4(t) {
      IPv4Chars(t);
    }
  }

  /** No part of the cleaned text is an IPv4 address. */
  lemma {:induction false} NoAddressLeft(s: string, i: nat, j: nat, t: string)
    ensures PartOf(s, i, j, t) ==> !IsIPv4(t)
    decreases |s|, 1
  {
    hide *;
    SomethingCleaned(s, i, j, t);
    if PartOf(s, i, j, t) && IsIPv4(t) {
      if Matched(s).Some? {
        NoneAfterHit(s, i, j, t);
      } else {
        NoneAfterMiss(s, i, j, t);
      }
    }
  }

  lemma {:induction false} NoneAfterHit(s: string, i: nat, j: nat, t: string)
    requires s != "" && Matched(s).Some?
    ensures PartOf(s, i, j, t) ==> !IsIPv4(t)
    decreases |s|, 0
  {
    hide *;
    if PartOf(s, i, j, t) && IsIPv4(t) {
      InRestOfHit(s, i, j, t);
      NoAddressLeft(s[Matched(s).value..], i - |SCRUBBED|, j - |SCRUBBED|, t);
    }
  }

  lemma {:induction false} NoneAfterMiss(s: string, i: nat, j: nat, t: string)
    requires s != "" && Matched(s).None?
    ensures PartOf(s, i, j, t) ==> !IsIPv4(t)
    decreases |s|, 0
  {
    hide *;
    if PartOf(s, i, j, t) && IsIPv4(t) {
      InRestOfMiss(s, i, j, t);
      NoAddressLeft(s[1..], i - 1, j - 1, t);
    }
  }

  /** `t` is the part of the cleaned text from `i` to `j`. */
  predicate PartOf(s: string, i: nat, j: nat, t: string) {
    i <= j <= |SafeClean(s)| && t == SafeClean(s)[i..j]
  }

  lemma InRestOfHit(s: string, i: nat, j: nat, t: string)
    ensures s != "" && Matched(s).Some? && PartOf(s, i, j, t) && IsIPv4(t) ==>
              |SCRUBBED| <= i && |SCRUBBED| <= j && PartOf(s[Matched(s).value..], i - |SCRUBBED|, j - |SCRUBBED|, t)
  {
    hide SafeClean, Matched, IsIPv4;
    if s != "" && Matched(s).Some? && PartOf(s, i, j, t) && IsIPv4(t) {
      IPv4Chars(t);
      CleanHit(s);
      InReplacement(SafeClean(s[Matched(s).value..]), i, j, t);
    }
  }

  lemma InRestOfMiss(s: string, i: nat, j: nat, t: string)
    ensures s != "" && Matched(s).None? && PartOf(s, i, j, t) && IsIPv4(t) ==>
              0 < i && 0 < j && PartOf(s[1..], i - 1, j - 1, t)
  {
    hide SafeClean, Matched, IsIPv4;
    if s != "" && Matched(s).None? && PartOf(s, i, j, t) && IsIPv4(t) {
      StartsUnmatched(s, j, t);
      CleanMiss(s);
      if i > 0 {
        Shifted(s[0], SafeClean(s[1..]), i, j);
      }
    }
  }

  lemma Shifted(c: char, rest: string, i: nat, j: nat)
    requires 0 < i <= j <= |rest| + 1
    ensures ([c] + rest)[i..j] == rest[i - 1..j - 1]
  {
  }

  /** Address characters in text that begins with the replacement lie after it. */
  lemma InReplacement(rest: string, i: nat, j: nat, t: string)
    requires i < j <= |SCRUBBED| + |rest| && t == (SCRUBBED + rest)[i..j]
    requires forall k :: 0 <= k < |t| ==> AddressChar(t[k])
    ensures i >= |SCRUBBED| && t == rest[i - |SCRUBBED|..j - |SCRUBBED|]
  {
    assert t[0] == (SCRUBBED + rest)[i];
    assert forall k :: 0 <= k < |SCRUBBED| ==> !AddressChar(SCRUBBED[k]);
  }

  /** Cleaned text that begins with an address comes from text that is matched at its start. */
  lemma StartsUnmatched(s: string, j: nat, t: string)
    ensures s != "" && PartOf(s, 0, j, t) && IsIPv4(t) ==> Matched(s).Some?
  {
    hide SafeClean, Matched, IsIPv4;
    if s != "" && PartOf(s, 0, j, t) && IsIPv4(t) {
      IPv4Chars(t);
      assert forall k :: 0 <= k < j ==> SafeClean(s)[k] == t[k];
      CleanPrefix(s, j);
      assert t == SafeClean(s)[..j] == s[..j];
      MatchedExact(s, j);
    }
  }

  ghost predicate AddressIn(s: string, i: nat, j: nat) {
    i <= j <= |s| && IsIPv4(s[i..j])
  }

  ghost predicate HasAddress(s: string) {
    exists i: nat, j: nat :: AddressIn(s, i, j)
  }

  lemma HitHas(s: string)
    ensures Matched(s).Some? ==> HasAddress(s)
    ensures s != "" && HasAddress(s[1..]) ==> HasAddress(s)
  {
    hide Matched;
    hide IsIPv4;
    var r := Matched(s);
    if r.Some? {
      MatchedExact(s, 0);
      assert s[0..r.value] == s[..r.value];
      assert AddressIn(s, 0, r.value);
    }
    if s != "" && HasAddress(s[1..]) {
      var i: nat, j: nat :| AddressIn(s[1..], i, j);
      assert s[1..][i..j] == s[i + 1..j + 1];
      assert AddressIn(s, i + 1, j + 1);
    }
  }

  lemma {:induction false} CleanedStays(s: string)
    requires !HasAddress(s)
    ensures SafeClean(s) == s
  {
    if s != "" {
      hide HasAddress;
      HitHas(s);
      CleanedStays(s[1..]);
      CleanMiss(s);
    }
  }

  /** The cleaned text contains no address, and cleaning again changes nothing. */
  lemma Cleaned(s: string)
    ensures !HasAddress(SafeClean(s)) && SafeClean(SafeClean(s)) == SafeClean(s)
  {
    forall i: nat, j: nat ensures !AddressIn(SafeClean(s), i, j) {
      if i <= j <= |SafeClean(s)| {
        NoAddressLeft(s, i, j, SafeClean(s)[i..j]);
      }
    }
    CleanedStays(SafeClean(s));
  }

  /** Text is changed exactly when it contains an address. */
  lemma ChangedExactly(s: string)
    ensures SafeClean(s) != s <==> HasAddress(s)
  {
    Cleaned(s);
    if !HasAddress(s) {
      CleanedStays(s);
    }
  }

  // ---------------------------------------------------------------- what stays

  datatype Piece = Kept(c: char) | Address(text: string)

  function Original(pieces: seq<Piece>): string {
    if pieces == [] then ""
    else OriginalOf(pieces[0]) + Original(pieces[1..])
  }

  function Scrubbed(pieces: seq<Piece>): string {
    if pieces == [] then ""
    else ScrubbedOf(pieces[0]) + Scrubbed(pieces[1..])
  }

  /**
   * Every text splits into kept characters and addresses so that cleaning replaces just the addresses
   * and keeps everything between them in order.
   */
  lemma {:induction false} OnlyAddressesReplaced(s: string) returns (pieces: seq<Piece>)
    ensures Original(pieces) == s && Scrubbed(pieces) == SafeClean(s)
    ensures forall i :: 0 <= i < |pieces| && pieces[i].Address? ==> IsIPv4(pieces[i].text)
  {
    if s == "" {
      pieces := [];
    } else {
      hide Matched;
      hide IsIPv4;
      hide SafeClean;
      var n := if Matched(s).Some? then Matched(s).value else 1;
      var piece := if Matched(s).Some? then Address(s[..n]) else Kept(s[0]);
      FirstPiece(s, n, piece);
      var rest := OnlyAddressesReplaced(s[n..]);
      pieces := [piece] + rest;
      PieceFirst(piece, rest);
      hide Original;
      hide Scrubbed;
    }
  }

  function OriginalOf(p: Piece): string {
    match p case Kept(c) => [c] case Address(t) => t
  }

  function ScrubbedOf(p: Piece): string {
    match p case Kept(c) => [c] case Address(_) => SCRUBBED
  }

  lemma FirstPiece(s: string, n: nat, piece: Piece)
    requires s != "" && n == (if Matched(s).Some? then Matched(s).value else 1)
    requires piece == if Matched(s).Some? then Address(s[..n]) else Kept(s[0])
    ensures 0 < n <= |s| && s == OriginalOf(piece) + s[n..] && SafeClean(s) == ScrubbedOf(piece) + SafeClean(s[n..])
    ensures piece.Address? ==> IsIPv4(piece.text)
  {
    hide SafeClean, Matched, IsIPv4;
    if Matched(s).Some? {
      HitPiece(s);
      assert piece == Address(s[..n]);
    } else {
      CleanMiss(s);
      assert piece == Kept(s[0]);
      assert s == [s[0]] + s[1..];
    }
  }

  lemma HitPiece(s: string)
    requires s != "" && Matched(s).Some?
    ensures var n := Matched(s).value;
            0 < n <= |s| && s == s[..n] + s[n..] && SafeClean(s) == SCRUBBED + SafeClean(s[n..]) && IsIPv4(s[..n])
  {
    hide *;
    CleanHit(s);
    MatchedExact(s, 0);
  }

  lemma PieceFirst(piece: Piece, rest: seq<Piece>)
    ensures Original([piece] + rest) == OriginalOf(piece) + Original(rest)
    ensures Scrubbed([piece] + rest) == ScrubbedOf(piece) + Scrubbed(rest)
  {
    assert ([piece] + rest)[1..] == rest;
  }
}
