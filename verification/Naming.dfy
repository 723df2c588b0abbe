/** The strings that are hashed into object names and labels. The hash itself
    (UUID version 5) is taken to be injective, so a name is represented by the
    string that goes into the hash. */
module Naming {

  /** Context ids are textual UUIDs. */
  const CONTEXT_ID_LENGTH: nat := 36

  /** Key of an image, artefact, onboarding or zone: its id followed by its
      federation context id. */
  function ScopedKey(id: string, ctx: string): string {
    id + ctx
  }

  /** Key of a deployment. */
  function DeploymentKey(ctx: string, appId: string, instanceId: string): string {
    ctx + appId + instanceId
  }

  /** What is hashed into a federation context id. */
  function FederationKey(operatorId: string, millis: string, country: string): string {
    operatorId + millis + country
  }

  predicate IsDigit(c: char) {
    '0' <= c <= '9'
  }

  predicate IsCapital(c: char) {
    'A' <= c <= 'Z'
  }

  /** A country code is absent or two capital letters. */
  predicate IsCountry(s: string) {
    s == "" || (|s| == 2 && IsCapital(s[0]) && IsCapital(s[1]))
  }

  predicate IsAlphanumeric(c: char) {
    IsDigit(c) || IsCapital(c) || 'a' <= c <= 'z'
  }

  predicate IsWordChar(c: char) {
    IsAlphanumeric(c) || c == '_'
  }

  /** The pattern of an application id: a letter, then 7 to 63 word characters. */
  predicate IsAppId(s: string) {
    && 8 <= |s| <= 64
    && IsAlphanumeric(s[0]) && !IsDigit(s[0])
    && forall i :: 0 <= i < |s| ==> IsWordChar(s[i])
  }

  /** The pattern of an application instance id: 8 to 64 word characters, the first and
      the last of them no underscore. */
  predicate IsInstanceId(s: string) {
    && 8 <= |s| <= 64
    && IsAlphanumeric(s[0]) && IsAlphanumeric(s[|s| - 1])
    && forall i :: 0 <= i < |s| ==> IsWordChar(s[i])
  }

  /** The pattern of an operator id; an omitted one is empty. */
  predicate IsOperatorId(s: string) {
    s == "" || (IsAlphanumeric(s[0]) && forall i :: 0 <= i < |s| ==> IsAlphanumeric(s[i]) || s[i] == '-')
  }

  /** Decimal rendering of a count of milliseconds. */
  function Decimal(n: nat): (s: string)
    ensures s != [] && forall i :: 0 <= i < |s| ==> IsDigit(s[i])
  {
    if n < 10 then ['0' + n as char] else Decimal(n / 10) + ['0' + (n % 10) as char]
  }

  /** The number a string of digits denotes. */
  function ReadDecimal(s: string): (n: nat)
    requires forall i :: 0 <= i < |s| ==> IsDigit(s[i])
  {
    if s == "" then 0
    else
      assert IsDigit(s[|s| - 1]);
      10 * ReadDecimal(s[..|s| - 1]) + (s[|s| - 1] as int - '0' as int)
  }

  /** The rendering reads back as the number, without a leading zero. */
  lemma {:induction false} DecimalReadsBack(n: nat)
    ensures ReadDecimal(Decimal(n)) == n
    ensures Decimal(n)[0] == '0' ==> n == 0 && Decimal(n) == "0"
  {
    var s := Decimal(n);
    if n >= 10 {
      DecimalReadsBack(n / 10);
      assert s[..|s| - 1] == Decimal(n / 10);
    } else {
      assert s[..|s| - 1] == "";
    }
  }

  lemma {:induction false} DecimalInjective(m: nat, n: nat)
    requires Decimal(m) == Decimal(n)
    ensures m == n
  {
    var s, t := Decimal(m), Decimal(n);
    assert s[|s| - 1] == t[|t| - 1];
    if m >= 10 && n >= 10 {
      assert s[..|s| - 1] == Decimal(m / 10);
      assert t[..|t| - 1] == Decimal(n / 10);
      DecimalInjective(m / 10, n / 10);
    }
  }

  /** Decimal rendering of a date, which may lie before 1970. */
  function Millis(ms: int): (s: string)
    ensures s != [] && IsDigit(s[|s| - 1])
    ensures forall i :: 0 <= i < |s| ==> IsDigit(s[i]) || s[i] == '-'
  {
    if ms < 0 then "-" + Decimal(-ms) else Decimal(ms)
  }

  /** A date from 1970 on is its decimal, an earlier one that of its distance with a sign. */
  lemma MillisReadsBack(ms: int)
    ensures ms >= 0 ==> Millis(ms) == Decimal(ms) && ReadDecimal(Millis(ms)) == ms
    ensures ms < 0 ==>
      Millis(ms)[0] == '-' && Millis(ms)[1..] == Decimal(-ms) && ReadDecimal(Millis(ms)[1..]) == -ms
  {
    if ms >= 0 {
      DecimalReadsBack(ms);
    } else {
      DecimalReadsBack(-ms);
    }
  }

  lemma MillisInjective(m: int, n: int)
    requires Millis(m) == Millis(n)
    ensures m == n
  {
    assert (m < 0 <==> Millis(m)[0] == '-') && (n < 0 <==> Millis(n)[0] == '-');
    if m < 0 {
      assert Millis(m)[1..] == Decimal(-m) && Millis(n)[1..] == Decimal(-n);
      DecimalInjective(-m, -n);
    } else {
      DecimalInjective(m, n);
    }
  }

  /** Two suffixes of equal length determine both parts. */
  lemma ScopedKeyInjective(id1: string, ctx1: string, id2: string, ctx2: string)
    requires |ctx1| == |ctx2|
    requires ScopedKey(id1, ctx1) == ScopedKey(id2, ctx2)
    ensures id1 == id2 && ctx1 == ctx2
  {
    var k1, k2 := ScopedKey(id1, ctx1), ScopedKey(id2, ctx2);
    assert k1[..|id1|] == id1 && k2[..|id2|] == id2;
    assert k1[|id1|..] == ctx1 && k2[|id2|..] == ctx2;
  }

  /** Hashing and prefixing do not merge keys: for any injective hash, equal names
      of one kind come from one id and one context. */
  lemma MirrorNameInjective(hash: string -> string, prefix: string,
                            id1: string, ctx1: string, id2: string, ctx2: string)
    requires forall s, t :: hash(s) == hash(t) ==> s == t
    requires |ctx1| == |ctx2|
    ensures prefix + hash(ScopedKey(id1, ctx1)) == prefix + hash(ScopedKey(id2, ctx2)) <==>
            id1 == id2 && ctx1 == ctx2
  {
    var n1, n2 := prefix + hash(ScopedKey(id1, ctx1)), prefix + hash(ScopedKey(id2, ctx2));
    if n1 == n2 {
      assert n1[|prefix|..] == hash(ScopedKey(id1, ctx1));
      assert n2[|prefix|..] == hash(ScopedKey(id2, ctx2));
      ScopedKeyInjective(id1, ctx1, id2, ctx2);
    }
  }

  predicate EndsWith(s: string, suffix: string) {
    |suffix| <= |s| && s[|s| - |suffix|..] == suffix
  }

  /** Two splits of one string: the longer second part ends with the shorter one. */
  lemma SameConcatenation(p1: string, s1: string, p2: string, s2: string)
    requires |s1| <= |s2|
    ensures p1 + s1 == p2 + s2 <==> EndsWith(s2, s1) && p1 == p2 + s2[..|s2| - |s1|]
  {
    var k := |s2| - |s1|;
    var w1, w2 := p1 + s1, p2 + s2;
    if w1 == w2 {
      assert w1[|p1|..] == s1 && w2[|p2| + k..] == s2[k..] && w1[..|p1|] == p1;
      assert w2[..|p2| + k] == p2 + s2[..k];
    }
    if EndsWith(s2, s1) && p1 == p2 + s2[..k] {
      assert s2 == s2[..k] + s1;
      assert w1 == p2 + (s2[..k] + s1);
    }
  }

  /** A digit before the end tells an absent country from a present one. */
  lemma CountryDetermined(start1: string, ms1: int, cc1: string, start2: string, ms2: int, cc2: string)
    requires IsCountry(cc1) && IsCountry(cc2)
    ensures FederationKey(start1, Millis(ms1), cc1) == FederationKey(start2, Millis(ms2), cc2) <==>
            cc1 == cc2 && start1 + Millis(ms1) == start2 + Millis(ms2)
  {
    var d1, d2 := Millis(ms1), Millis(ms2);
    var k1, k2 := FederationKey(start1, d1, cc1), FederationKey(start2, d2, cc2);
    if k1 == k2 {
      var last := |k1| - 1;
      assert k1[last] == if cc1 == "" then d1[|d1| - 1] else cc1[1];
      assert k2[last] == if cc2 == "" then d2[|d2| - 1] else cc2[1];
      assert |cc1| == |cc2|;
      assert k1 == (start1 + d1) + cc1 && k2 == (start2 + d2) + cc2;
      ScopedKeyInjective(start1 + d1, cc1, start2 + d2, cc2);
    }
  }

  /** When two federation keys are equal: country and, for dates with equally many digits,
      date and operator are; otherwise the shorter date ends the longer one, and the
      operator of the shorter date ends with the digits in front. */
  lemma FederationKeyInjective(op1: string, ms1: int, cc1: string, op2: string, ms2: int, cc2: string)
    requires IsCountry(cc1) && IsCountry(cc2) && |Millis(ms1)| <= |Millis(ms2)|
    ensures var d1, d2 := Millis(ms1), Millis(ms2);
      FederationKey(op1, d1, cc1) == FederationKey(op2, d2, cc2) <==>
      cc1 == cc2 && EndsWith(d2, d1) && op1 == op2 + d2[..|d2| - |d1|]
    ensures |Millis(ms1)| == |Millis(ms2)| ==>
      (FederationKey(op1, Millis(ms1), cc1) == FederationKey(op2, Millis(ms2), cc2) <==>
       op1 == op2 && ms1 == ms2 && cc1 == cc2)
  {
    var d1, d2 := Millis(ms1), Millis(ms2);
    CountryDetermined(op1, ms1, cc1, op2, ms2, cc2);
    SameConcatenation(op1, d1, op2, d2);
    if |d1| == |d2| {
      assert d2[0..] == d2 && op2 + d2[..0] == op2;
      if d1 == d2 {
        MillisInjective(ms1, ms2);
      }
    }
  }

  /** Some two operators share a key on two dates exactly when one date ends the other. */
  lemma FederationKeysMeet(ms1: int, ms2: int, cc: string)
    requires IsCountry(cc) && |Millis(ms1)| <= |Millis(ms2)|
    ensures (exists op1, op2 :: IsOperatorId(op1) && IsOperatorId(op2) &&
               FederationKey(op1, Millis(ms1), cc) == FederationKey(op2, Millis(ms2), cc)) <==>
            EndsWith(Millis(ms2), Millis(ms1))
  {
    var d1, d2 := Millis(ms1), Millis(ms2);
    forall op1, op2 | FederationKey(op1, d1, cc) == FederationKey(op2, d2, cc) ensures EndsWith(d2, d1) {
      FederationKeyInjective(op1, ms1, cc, op2, ms2, cc);
    }
    if EndsWith(d2, d1) {
      var op1, op2 := ['a'] + d2[..|d2| - |d1|], ['a'];
      FederationKeyInjective(op1, ms1, cc, op2, ms2, cc);
      assert IsOperatorId(op1) && IsOperatorId(op2);
    }
  }

  // ---------------------------------------------------------------- deployments

  /** When two deployments of one context share a key: one application id continues the
      other, and the instance ids make up for the difference. */
  lemma DeploymentKeysEqual(ctx: string, a1: string, i1: string, a2: string, i2: string)
    requires |a1| <= |a2|
    ensures DeploymentKey(ctx, a1, i1) == DeploymentKey(ctx, a2, i2) <==> a1 <= a2 && i1 == a2[|a1|..] + i2
  {
    var k1, k2 := DeploymentKey(ctx, a1, i1), DeploymentKey(ctx, a2, i2);
    assert k1 == ctx + (a1 + i1) && k2 == ctx + (a2 + i2);
    if k1 == k2 {
      assert a1 + i1 == k1[|ctx|..] && a2 + i2 == k2[|ctx|..];
      assert a1 == (a1 + i1)[..|a1|] == (a2 + i2)[..|a1|] == a2[..|a1|];
      assert i1 == (a1 + i1)[|a1|..] == (a2 + i2)[|a1|..] == a2[|a1|..] + i2;
    }
    if a1 <= a2 && i1 == a2[|a1|..] + i2 {
      assert a2 == a1 + a2[|a1|..];
      assert a1 + i1 == a2 + i2;
    }
  }

  /** One id continues the other with something an instance id can start with. */
  predicate Continues(shorter: string, longer: string) {
    shorter <= longer && (shorter == longer || longer[|shorter|] != '_')
  }

  /** The deployment key joins two variable-length ids: two applications of a context can
      have instances that share a key, and so a mirror, exactly when the id of one
      continues the id of the other. */
  lemma DeploymentKeyCollides(ctx: string, a1: string, a2: string)
    requires IsAppId(a1) && IsAppId(a2) && |a1| <= |a2|
    ensures (exists i1, i2 :: IsInstanceId(i1) && IsInstanceId(i2) &&
               DeploymentKey(ctx, a1, i1) == DeploymentKey(ctx, a2, i2)) <==>
            Continues(a1, a2)
  {
    forall i1, i2 | IsInstanceId(i1) && IsInstanceId(i2) && DeploymentKey(ctx, a1, i1) == DeploymentKey(ctx, a2, i2)
      ensures Continues(a1, a2)
    {
      DeploymentKeysEqual(ctx, a1, i1, a2, i2);
      if |a1| < |a2| {
        assert i1[0] == a2[|a1|];
      }
    }
    if Continues(a1, a2) {
      var i2 := seq(8, _ => 'i');
      var i1 := a2[|a1|..] + i2;
      DeploymentKeysEqual(ctx, a1, i1, a2, i2);
      assert IsInstanceId(i2);
      assert forall k :: 0 <= k < |i1| ==> i1[k] == if k < |a2| - |a1| then a2[|a1| + k] else 'i';
      assert IsInstanceId(i1);
    }
  }

  /** Two valid deployments that share a mirror. */
  lemma DeploymentKeyCollision(ctx: string)
    ensures IsAppId("appAlpha") && IsAppId("appAlpha1") && IsInstanceId("1instance") && IsInstanceId("instance")
    ensures DeploymentKey(ctx, "appAlpha", "1instance") == DeploymentKey(ctx, "appAlpha1", "instance")
  {
    assert "appAlpha1"[|"appAlpha"|..] == "1";
    assert "1" + "instance" == "1instance";
    DeploymentKeysEqual(ctx, "appAlpha", "1instance", "appAlpha1", "instance");
  }
}
