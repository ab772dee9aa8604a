/**
 Bluetooth address strings: normalisation, validity, matching, and names that
 are only an address.
 */
module Addresses {
  import opened Text

  function NormalizeAddress(address: string): string {
    RemoveChar(ReplaceChar(ToUpper(address), '-', ':'), ' ')
  }

  /** Six non-empty groups of two characters; empty groups are dropped, hex digits are not required. */
  predicate IsValidAddress(address: string) {
    var parts := Split(NormalizeAddress(address), ':');
    |parts| == 6 && forall i :: 0 <= i < 6 ==> |parts[i]| == 2
  }

  predicate AddressesMatch(p: string, q: string) {
    var a := NormalizeAddress(p);
    var b := NormalizeAddress(q);
    a == b
    || (IsValidAddress(a) && (Contains(q, RemoveChar(a, ':')) || Contains(q, a)))
    || (IsValidAddress(b) && (Contains(p, RemoveChar(b, ':')) || Contains(p, b)))
  }

  predicate IsMacAddressName(name: string, address: string) {
    var trimmed := StripEdges(name);
    trimmed != "" && (IsValidAddress(trimmed) || (address != "" && AddressesMatch(trimmed, address)))
  }

  // ----- normal forms -----

  /** The strings that normalisation leaves alone. */
  predicate IsNormal(s: string) {
    forall c :: c in s ==> c != ' ' && c != '-' && !('a' <= c <= 'z')
  }

  lemma NormalizeYieldsNormal(s: string)
    ensures IsNormal(NormalizeAddress(s))
  {
    var up := ToUpper(s);
    var colons := ReplaceChar(up, '-', ':');
    forall c | c in NormalizeAddress(s) ensures c != ' ' && c != '-' && !('a' <= c <= 'z') {
      RemoveCharMembers(colons, ' ', c);
      var i :| 0 <= i < |colons| && colons[i] == c;
      assert up[i] == UpperChar(s[i]);
    }
  }

  lemma NormalIsFixed(s: string)
    requires IsNormal(s)
    ensures NormalizeAddress(s) == s
  {
    assert forall i :: 0 <= i < |s| ==> s[i] in s;
    assert ToUpper(s) == s;
    assert ReplaceChar(s, '-', ':') == s;
    RemoveCharAbsent(s, ' ');
  }

  lemma NormalizeIdempotent(s: string)
    ensures NormalizeAddress(NormalizeAddress(s)) == NormalizeAddress(s)
    ensures IsValidAddress(NormalizeAddress(s)) == IsValidAddress(s)
  {
    NormalizeYieldsNormal(s);
    NormalIsFixed(NormalizeAddress(s));
  }

  /** The fixed points of normalisation are exactly the normal strings. */
  lemma NormalizeFixpoints(s: string)
    ensures NormalizeAddress(s) == s <==> IsNormal(s)
  {
    NormalizeYieldsNormal(s);
    if IsNormal(s) {
      NormalIsFixed(s);
    }
  }

  lemma NormalizeConcat(a: string, b: string)
    ensures NormalizeAddress(a + b) == NormalizeAddress(a) + NormalizeAddress(b)
  {
    assert ToUpper(a + b) == ToUpper(a) + ToUpper(b);
    var x, y := ReplaceChar(ToUpper(a), '-', ':'), ReplaceChar(ToUpper(b), '-', ':');
    assert ReplaceChar(ToUpper(a) + ToUpper(b), '-', ':') == x + y;
    RemoveCharConcat(x, y, ' ');
  }

  // ----- spellings -----

  /** What may be written for a character of a normal address: itself, a dash for a colon, a small letter. */
  predicate CharSpells(written: char, c: char) {
    written == c || (written == '-' && c == ':') || ('A' <= c <= 'Z' && written as int == c as int + 32)
  }

  /** The text writes the address character by character, with blanks anywhere. */
  predicate Spells(s: string, a: string) {
    if s == "" then a == ""
    else (s[0] == ' ' && Spells(s[1..], a))
         || (a != "" && CharSpells(s[0], a[0]) && Spells(s[1..], a[1..]))
  }

  lemma NormalizeOne(c: char)
    ensures c == ' ' ==> NormalizeAddress([c]) == ""
    ensures c != ' ' ==> |NormalizeAddress([c])| == 1
                         && forall d :: IsNormal([d]) ==> (NormalizeAddress([c]) == [d] <==> CharSpells(c, d))
  {
    var up := ReplaceChar(ToUpper([c]), '-', ':');
    assert up == [up[0]];
    assert RemoveChar(up[1..], ' ') == "";
    assert forall d: char :: d in [d];
  }

  /** A normal string is the normal form of exactly its spellings. */
  lemma {:induction false} NormalFormOfSpellings(s: string, a: string)
    requires IsNormal(a)
    ensures NormalizeAddress(s) == a <==> Spells(s, a)
  {
    hide NormalizeAddress, CharSpells;
    if s == "" {
      NormalIsFixed("");
    } else {
      var rest := s[1..];
      assert s == [s[0]] + rest;
      NormalizeConcat([s[0]], rest);
      NormalizeOne(s[0]);
      NormalFormOfSpellings(rest, a);
      if a != "" {
        assert forall c :: c in a[1..] ==> c in a;
        NormalFormOfSpellings(rest, a[1..]);
        SpellsFirst(s[0], NormalizeAddress(rest), a);
      } else {
        SpellsNothing(s[0]);
      }
    }
  }

  lemma SpellsNothing(c: char)
    ensures NormalizeAddress([c]) == "" <==> c == ' '
  {
    NormalizeOne(c);
  }

  lemma SpellsFirst(c: char, rest: string, a: string)
    requires a != "" && IsNormal(a)
    ensures NormalizeAddress([c]) + rest == a
            <==> if c == ' ' then rest == a else CharSpells(c, a[0]) && rest == a[1..]
    ensures c == ' ' ==> !CharSpells(c, a[0])
  {
    hide NormalizeAddress;
    NormalizeOne(c);
    assert a[0] in a;
    assert IsNormal([a[0]]);
    assert a == [a[0]] + a[1..];
  }

  /** The usual spellings: with dashes, in small letters, and with a blank put in anywhere. */
  lemma UsualSpellings(a: string)
    requires IsNormal(a)
    ensures Spells(a, a)
    ensures Spells(ReplaceChar(a, ':', '-'), a)
    ensures Spells(ToLower(a), a)
  {
    PointwiseSpells(a, a);
    PointwiseSpells(ReplaceChar(a, ':', '-'), a);
    PointwiseSpells(ToLower(a), a);
  }

  lemma {:induction false} PointwiseSpells(s: string, a: string)
    requires |s| == |a| && forall i :: 0 <= i < |a| ==> CharSpells(s[i], a[i])
    ensures Spells(s, a)
  {
    if s != "" {
      PointwiseSpells(s[1..], a[1..]);
    }
  }

  lemma {:induction false} BlankSpells(s: string, i: nat, a: string)
    requires i <= |s| && Spells(s, a)
    ensures Spells(s[..i] + " " + s[i..], a)
    decreases i
  {
    var t := s[..i] + " " + s[i..];
    if i == 0 {
      assert t[1..] == s;
    } else {
      assert t[1..] == s[1..][..i - 1] + " " + s[1..][i - 1..];
      if s[0] == ' ' && Spells(s[1..], a) {
        BlankSpells(s[1..], i - 1, a);
      } else {
        BlankSpells(s[1..], i - 1, a[1..]);
      }
    }
  }

  /** Every spelling of a canonical address is valid, has it as its normal form and matches it. */
  lemma SpellingsAreTheAddress(s: string, a: string)
    requires Canonical(a) && IsNormal(a) && Spells(s, a)
    ensures NormalizeAddress(s) == a && IsValidAddress(s) && AddressesMatch(s, a)
  {
    NormalFormOfSpellings(s, a);
    NormalIsFixed(a);
    CanonicalNormalIsValid(a);
  }

  // ----- validity -----

  /** A valid address has exactly twelve characters besides its colons, and at least five colons. */
  lemma ValidShape(s: string)
    requires IsValidAddress(s)
    ensures |RemoveChar(NormalizeAddress(s), ':')| == 12
    ensures |NormalizeAddress(s)| >= 17
  {
    var n := NormalizeAddress(s);
    SplitContents(n, ':', "");
    SplitCount(n, ':', "");
    FlattenLength(Split(n, ':'), 2);
    assert "" + RemoveChar(n, ':') == RemoveChar(n, ':');
  }

  /** `k` groups of two characters, with colons between them and any number of colons anywhere around them. */
  predicate Groups(s: string, k: nat)
    decreases |s|
  {
    if s == "" then k == 0
    else if s[0] == ':' then Groups(s[1..], k)
    else k > 0 && |s| >= 2 && s[1] != ':' && (|s| == 2 || s[2] == ':') && Groups(s[2..], k - 1)
  }

  predicate InTwos(parts: seq<string>) {
    forall i :: 0 <= i < |parts| ==> |parts[i]| == 2
  }

  lemma {:induction false} GroupsAreTheSplit(s: string, k: nat)
    ensures Groups(s, k) <==> |Split(s, ':')| == k && InTwos(Split(s, ':'))
    decreases |s|
  {
    var parts := Split(s, ':');
    if s == "" {
    } else if s[0] == ':' {
      GroupsAreTheSplit(s[1..], k);
      assert parts == [] + Split(s[1..], ':') == Split(s[1..], ':');
    } else {
      FirstPiece(s);
      if |s| >= 2 && s[1] != ':' && (|s| == 2 || s[2] == ':') {
        if k > 0 {
          GroupsAreTheSplit(s[2..], k - 1);
        }
        PieceInFront(s[..2], Split(s[2..], ':'));
      }
    }
  }

  lemma PieceInFront(part: string, parts: seq<string>)
    ensures InTwos([part] + parts) <==> |part| == 2 && InTwos(parts)
  {
    var all := [part] + parts;
    assert all[0] == part && forall i :: 0 <= i < |parts| ==> all[i + 1] == parts[i];
  }

  /** The first piece of a text that does not begin with a colon is as long as the text has no colon. */
  lemma FirstPiece(s: string)
    requires s != "" && s[0] != ':'
    ensures var parts := Split(s, ':');
            && parts != []
            && if |s| >= 2 && s[1] != ':' && (|s| == 2 || s[2] == ':') then parts == [s[..2]] + Split(s[2..], ':')
               else |parts[0]| != 2
  {
    var rest := s[1..];
    assert "" + [s[0]] == [s[0]];
    assert Split(s, ':') == SplitAcc(rest, ':', [s[0]]);
    if |s| >= 2 && s[1] != ':' {
      assert [s[0]] + [rest[0]] == s[..2] && rest[1..] == s[2..];
      assert Split(s, ':') == SplitAcc(s[2..], ':', s[..2]);
      if |s| > 2 && s[2] == ':' {
        assert Split(s, ':') == [s[..2]] + SplitAcc(s[2..][1..], ':', "");
        assert [] + SplitAcc(s[2..][1..], ':', "") == Split(s[2..], ':');
      } else if |s| > 2 {
        assert s[2..][1..] == s[3..] && s[..2] + [s[2..][0]] == s[..3];
        PieceGrows(s[3..], s[..3]);
      } else {
        assert s[2..] == "" && [s[..2]] + [] == [s[..2]];
      }
    }
  }

  lemma {:induction false} PieceGrows(s: string, cur: string)
    requires cur != ""
    ensures SplitAcc(s, ':', cur) != [] && |SplitAcc(s, ':', cur)[0]| >= |cur|
    decreases |s|
  {
    if s != "" && s[0] != ':' {
      PieceGrows(s[1..], cur + [s[0]]);
    }
  }

  /** An address is valid exactly if its normal form is six groups of two characters and colons. */
  lemma ValidIsSixGroups(s: string)
    ensures IsValidAddress(s) <==> Groups(NormalizeAddress(s), 6)
  {
    SixGroups(s, 6);
  }

  lemma SixGroups(s: string, count: nat)
    requires count == 6
    ensures IsValidAddress(s) <==> Groups(NormalizeAddress(s), count)
  {
    hide NormalizeAddress, Split, Groups;
    GroupsAreTheSplit(NormalizeAddress(s), count);
  }

  lemma EmptyIsNotValid()
    ensures !IsValidAddress("")
  {
    if IsValidAddress("") {
      NormalIsFixed("");
      ValidShape("");
    }
  }

  /** Six two-character groups without colons, joined by single colons. */
  predicate Canonical(s: string) {
    |s| == 17 && forall i :: 0 <= i < 17 ==> (s[i] == ':' <==> i % 3 == 2)
  }

  lemma CanonicalNormalIsValid(s: string)
    requires Canonical(s) && IsNormal(s)
    ensures IsValidAddress(s)
  {
    NormalIsFixed(s);
    CanonicalSplit(s, 6);
    assert s[..3 * 6 - 1] == s;
  }

  /** Splitting the first `k` groups of a canonical address gives `k` pieces of two. */
  lemma {:induction false} CanonicalSplit(s: string, k: nat)
    requires Canonical(s) && 1 <= k <= 6
    ensures var parts := Split(s[..3 * k - 1], ':');
            |parts| == k && forall i :: 0 <= i < k ==> |parts[i]| == 2
    decreases k
  {
    var last := s[3 * k - 3..3 * k - 1];
    assert ':' !in last by {
      assert last[0] == s[3 * k - 3] && last[1] == s[3 * k - 2];
    }
    if k == 1 {
      assert s[..2] == last;
      SplitWord(last, ':', "");
      assert "" + last == last;
    } else {
      CanonicalSplit(s, k - 1);
      assert s[..3 * k - 1] == s[..3 * (k - 1) - 1] + [':'] + last;
      SplitSnoc(s[..3 * (k - 1) - 1], ':', last, "");
    }
  }

  // ----- matching -----

  /** A text shorter than twelve characters is no address and matches none. */
  lemma ShortIsNoAddress(t: string, address: string)
    requires |t| < 12 && IsValidAddress(address)
    ensures !IsValidAddress(t) && !AddressesMatch(t, address)
  {
    if IsValidAddress(t) {
      ValidShape(t);
    }
    ValidShape(address);
    NormalizeIdempotent(t);
    NormalizeIdempotent(address);
  }

  /** A text that contains a canonical address, with its colons or without, matches it. */
  lemma NamingMatches(before: string, a: string, after: string)
    requires Canonical(a) && IsNormal(a)
    ensures AddressesMatch(before + a + after, a)
    ensures AddressesMatch(before + RemoveChar(a, ':') + after, a)
  {
    NormalIsFixed(a);
    CanonicalNormalIsValid(a);
    ValidShape(a);
    WithinContains(before, a, after);
    WithinContains(before, RemoveChar(a, ':'), after);
  }

  lemma WithinContains(before: string, t: string, after: string)
    requires t != ""
    ensures Contains(before + t + after, t)
  {
    assert OccursAt(before + t + after, t, |before|);
  }

  lemma MatchReflexive(a: string)
    ensures AddressesMatch(a, a)
    ensures AddressesMatch(a, NormalizeAddress(a))
    ensures AddressesMatch(NormalizeAddress(a), a)
  {
    NormalizeIdempotent(a);
  }

  lemma MatchSymmetric(a: string, b: string)
    ensures AddressesMatch(a, b) == AddressesMatch(b, a)
  {
  }

  /** Any three consecutive characters of a canonical address include a colon. */
  lemma NoCompactInsideCanonical(s: string, t: string)
    requires Canonical(s) && |t| >= 3 && ':' !in t
    ensures !Contains(s, t)
  {
    forall i | 0 <= i <= |s| - |t| ensures !OccursAt(s, t, i) {
      var j := 2 - i % 3;
      assert s[i..i + |t|][j] == s[i + j] == ':';
      assert t[j] in t;
    }
  }

  lemma WholeOccurrence(s: string, t: string)
    requires Contains(s, t) && |t| >= |s|
    ensures s == t
  {
    var i :| 0 <= i <= |s| - |t| && OccursAt(s, t, i);
    assert s[0..|s|] == s;
  }

  lemma EmbeddedInCanonical(a: string, b: string)
    requires Canonical(b)
    requires IsValidAddress(NormalizeAddress(a))
    requires Contains(b, RemoveChar(NormalizeAddress(a), ':')) || Contains(b, NormalizeAddress(a))
    ensures NormalizeAddress(a) == NormalizeAddress(b)
  {
    var n := NormalizeAddress(a);
    NormalizeIdempotent(a);
    ValidShape(n);
    RemoveCharMembers(n, ':', ':');
    NoCompactInsideCanonical(b, RemoveChar(n, ':'));
    WholeOccurrence(b, n);
  }

  /** On canonical addresses, matching is equality of normal forms: an equivalence. */
  lemma MatchOnCanonical(a: string, b: string)
    requires Canonical(a) && Canonical(b)
    ensures AddressesMatch(a, b) <==> NormalizeAddress(a) == NormalizeAddress(b)
  {
    var na, nb := NormalizeAddress(a), NormalizeAddress(b);
    if AddressesMatch(a, b) && na != nb {
      if IsValidAddress(na) && (Contains(b, RemoveChar(na, ':')) || Contains(b, na)) {
        EmbeddedInCanonical(a, b);
      } else {
        EmbeddedInCanonical(b, a);
      }
    }
  }

  /**
   Elsewhere it is not: for any two different addresses, the text that holds
   both in compact form matches each of them.
   */
  lemma MatchIsNotTransitive(a: string, b: string)
    requires Canonical(a) && IsNormal(a) && Canonical(b) && IsNormal(b) && a != b
    ensures var both := RemoveChar(a, ':') + RemoveChar(b, ':');
            AddressesMatch(a, both) && AddressesMatch(both, b) && !AddressesMatch(a, b)
  {
    NormalIsFixed(a);
    NormalIsFixed(b);
    CanonicalNormalIsValid(a);
    CanonicalNormalIsValid(b);
    MatchOnCanonical(a, b);
    ValidShape(a);
    ValidShape(b);
    var both := RemoveChar(a, ':') + RemoveChar(b, ':');
    assert OccursAt(both, RemoveChar(a, ':'), 0);
    assert OccursAt(both, RemoveChar(b, ':'), 12);
  }
}
