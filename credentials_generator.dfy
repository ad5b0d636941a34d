/**
 * Credentials for new users: a username built from the person's name with a numeric
 * suffix when similar usernames are stored, and the pattern test applied to random
 * password candidates.
 */
module Credentials {
  import opened Wrappers
  import opened Strings

  const UPPER: string := "ABCDEFGHIJKLMNOPQRSTUVWXYZ"
  const LOWER: string := "abcdefghijklmnopqrstuvwxyz"
  const DIGITS: string := "0123456789"
  /** The alphabet random passwords are drawn from. */
  const CHARACTERS: string := UPPER + LOWER + DIGITS

  /** `CHARACTERS` is the source's 62-character literal. */
  lemma CharactersLiteral()
    ensures CHARACTERS == "ABCDEFGHIJKLMNOPQRSTUVWXYZabcdefghijklmnopqrstuvwxyz0123456789"
  {
  }

  /** The length of a random password. */
  const LENGTH: nat := 10

  // ---------------------------------------------------------------------------------------
  // Passwords.

  /** A character of the class `[A-Za-z0-9]`. */
  predicate IsAlphanumeric(c: char) {
    ('A' <= c <= 'Z') || ('a' <= c <= 'z') || ('0' <= c <= '9')
  }

  /** The password pattern `^[A-Za-z0-9]+$`: non-empty and alphanumeric throughout. */
  predicate MatchesPasswordPattern(s: string) {
    |s| > 0 && forall i :: 0 <= i < |s| ==> IsAlphanumeric(s[i])
  }

  /** A string that `RandomStringUtils.random(LENGTH, CHARACTERS)` can return. */
  predicate IsDraw(s: string) {
    |s| == LENGTH && forall i :: 0 <= i < |s| ==> s[i] in CHARACTERS
  }

  /**
   * `generateRandomPassword` given the successive random candidates it would draw: the
   * first candidate that matches the pattern. `None` when no candidate in `draws` matches
   * (the source would go on drawing).
   */
  function GenerateRandomPassword(draws: seq<string>): (r: Option<string>)
    ensures r.None? <==> forall i :: 0 <= i < |draws| ==> !MatchesPasswordPattern(draws[i])
    ensures r.Some? ==> exists i :: 0 <= i < |draws| && draws[i] == r.value
                                    && MatchesPasswordPattern(draws[i])
                                    && forall j :: 0 <= j < i ==> !MatchesPasswordPattern(draws[j])
  {
    if draws == [] then None
    else if MatchesPasswordPattern(draws[0]) then Some(draws[0])
    else
      var r := GenerateRandomPassword(draws[1..]);
      assert forall j :: 0 < j < |draws| ==> draws[j] == draws[1..][j - 1];
      r
  }

  /** Every character of `CHARACTERS` is alphanumeric. */
  lemma CharactersAreAlphanumeric(c: char)
    requires c in CHARACTERS
    ensures IsAlphanumeric(c)
  {
    var i :| 0 <= i < |CHARACTERS| && CHARACTERS[i] == c;
    if i < 26 { UpperAt(i); } else if i < 52 { LowerAt(i - 26); } else { DigitAt(i - 52); }
  }

  /** The three ranges `CHARACTERS` is made of. */
  lemma UpperAt(i: int)
    requires 0 <= i < |UPPER|
    ensures 'A' <= UPPER[i] <= 'Z'
  {
  }

  lemma LowerAt(i: int)
    requires 0 <= i < |LOWER|
    ensures 'a' <= LOWER[i] <= 'z'
  {
  }

  lemma DigitAt(i: int)
    requires 0 <= i < |DIGITS|
    ensures '0' <= DIGITS[i] <= '9'
  {
  }

  /** A draw from `CHARACTERS` matches the pattern, so the first candidate is kept without retry. */
  lemma FirstDrawAccepted(draws: seq<string>)
    requires |draws| > 0 && IsDraw(draws[0])
    ensures MatchesPasswordPattern(draws[0])
    ensures GenerateRandomPassword(draws) == Some(draws[0])
  {
    forall i | 0 <= i < |draws[0]| ensures IsAlphanumeric(draws[0][i]) {
      CharactersAreAlphanumeric(draws[0][i]);
    }
  }

  // ---------------------------------------------------------------------------------------
  // Usernames.

  /** `firstName + "." + lastName`. */
  function BaseUsername(firstName: string, lastName: string): string {
    firstName + "." + lastName
  }

  /** `countByUsernameContaining(base)`: how many stored usernames contain `base`. */
  function CountContaining(existing: set<string>, base: string): (n: nat)
    ensures n == 0 <==> forall u :: u in existing ==> !Contains(u, base)
    ensures base in existing ==> n > 0
  {
    var clashes := set u | u in existing && Contains(u, base);
    ContainsSelf(base);
    assert base in existing ==> base in clashes;
    assert forall u :: u in existing && Contains(u, base) ==> u in clashes;
    assert (exists u :: u in existing && Contains(u, base)) ==> |clashes| > 0;
    |clashes|
  }

  lemma CountContainingIs(existing: set<string>, base: string, clashes: set<string>)
    requires forall u :: u in clashes <==> u in existing && Contains(u, base)
    ensures CountContaining(existing, base) == |clashes|
  {
    assert (set u | u in existing && Contains(u, base)) == clashes;
  }

  /** `generateUsername` exactly as the source writes it. */
  function GenerateUsernameAsWritten(firstName: string, lastName: string, existing: set<string>): (r: string)
    ensures BaseUsername(firstName, lastName) <= r
    ensures r == BaseUsername(firstName, lastName) <==> CountContaining(existing, BaseUsername(firstName, lastName)) == 0
  {
    var base := BaseUsername(firstName, lastName);
    var count := CountContaining(existing, base);
    if count > 0 then base + DecimalString(count + 1) else base
  }

  /** With no stored username containing the base, the result is the base itself. */
  lemma AsWrittenWithoutClash(firstName: string, lastName: string, existing: set<string>)
    requires CountContaining(existing, BaseUsername(firstName, lastName)) == 0
    ensures GenerateUsernameAsWritten(firstName, lastName, existing) == firstName + "." + lastName
  {
  }

  /**
   * With clashes the result is the base followed by the decimal digits of `count + 1`:
   * the suffix reads back as `count + 1`, is at least 2, and is never "1".
   */
  lemma AsWrittenSuffix(firstName: string, lastName: string, existing: set<string>)
    requires CountContaining(existing, BaseUsername(firstName, lastName)) > 0
    ensures var base := BaseUsername(firstName, lastName);
            var r := GenerateUsernameAsWritten(firstName, lastName, existing);
            var suffix := r[|base|..];
            && r == base + DecimalString(CountContaining(existing, base) + 1)
            && (forall i :: 0 <= i < |suffix| ==> '0' <= suffix[i] <= '9')
            && DecimalValue(suffix) == CountContaining(existing, base) + 1 >= 2
            && r != base + "1"
  {
    var base := BaseUsername(firstName, lastName);
    var count := CountContaining(existing, base);
    var r := GenerateUsernameAsWritten(firstName, lastName, existing);
    assert r[|base|..] == DecimalString(count + 1);
    DecimalRoundTrip(count + 1);
  }

  /** The result always begins with the base username. */
  lemma AsWrittenHasBasePrefix(firstName: string, lastName: string, existing: set<string>)
    ensures BaseUsername(firstName, lastName) <= GenerateUsernameAsWritten(firstName, lastName, existing)
  {
  }

  /**
   * As written, the generated username can already be taken: with "John.Doe2" stored,
   * John Doe gets the suffix 1 + 1 = 2, which is "John.Doe2" again.
   */
  lemma AsWrittenCanClash()
    ensures GenerateUsernameAsWritten("John", "Doe", {"John.Doe2"}) == "John.Doe2"
    ensures "John.Doe2" in {"John.Doe2"}
  {
    assert BaseUsername("John", "Doe") == "John.Doe";
    assert OccursAt("John.Doe2", "John.Doe", 0);
    assert (set u | u in {"John.Doe2"} && Contains(u, "John.Doe")) == {"John.Doe2"};
    CountContainingIs({"John.Doe2"}, "John.Doe", {"John.Doe2"});
    assert DecimalString(2) == "2";
    assert "John.Doe" + "2" == "John.Doe2";
  }

  /** A username whose suffix is at least `10^(longest stored length)` is too long to be stored. */
  lemma TakenSuffixBounded(base: string, existing: set<string>, k: nat)
    requires base + DecimalString(k) in existing
    ensures k < Pow10(MaxLength(existing))
  {
    if k >= Pow10(MaxLength(existing)) {
      DecimalStringLong(k, MaxLength(existing));
    }
  }

  /** The least suffix from `k` on whose username `base + suffix` is not stored. */
  function FreeSuffix(base: string, existing: set<string>, k: nat): (j: nat)
    ensures j >= k && base + DecimalString(j) !in existing
    ensures forall i :: k <= i < j ==> base + DecimalString(i) in existing
    decreases Pow10(MaxLength(existing)) - k
  {
    if base + DecimalString(k) !in existing then k
    else
      TakenSuffixBounded(base, existing, k);
      FreeSuffix(base, existing, k + 1)
  }

  /**
   * `generateUsername` corrected: the base when no stored username contains it, else the
   * base with the least free suffix from `count + 1` on (the source's suffix when free).
   */
  function GenerateUsername(firstName: string, lastName: string, existing: set<string>): (r: string)
    ensures BaseUsername(firstName, lastName) <= r
    ensures r == BaseUsername(firstName, lastName) <==> CountContaining(existing, BaseUsername(firstName, lastName)) == 0
  {
    var base := BaseUsername(firstName, lastName);
    var count := CountContaining(existing, base);
    if count > 0 then base + DecimalString(FreeSuffix(base, existing, count + 1)) else base
  }

  /**
   * The corrected username is never stored already, begins with the base, agrees with the
   * source whenever the source's result is free, and carries a suffix of at least 2 when
   * it has one.
   */
  lemma GenerateUsernameFresh(firstName: string, lastName: string, existing: set<string>)
    ensures var base := BaseUsername(firstName, lastName);
            var r := GenerateUsername(firstName, lastName, existing);
            && r !in existing
            && base <= r
            && (GenerateUsernameAsWritten(firstName, lastName, existing) !in existing ==>
                  r == GenerateUsernameAsWritten(firstName, lastName, existing))
            && (CountContaining(existing, base) == 0 ==> r == base)
            && (CountContaining(existing, base) > 0 ==>
                  exists j :: j >= 2 && r == base + DecimalString(j))
  {
    var base := BaseUsername(firstName, lastName);
    var clashes := set u | u in existing && Contains(u, base);
    if base in existing {
      ContainsSelf(base);
      assert base in clashes;
      assert |clashes| >= 1;
    }
    if CountContaining(existing, base) > 0 {
      var j := FreeSuffix(base, existing, CountContaining(existing, base) + 1);
      assert GenerateUsername(firstName, lastName, existing) == base + DecimalString(j);
    }
  }
}
