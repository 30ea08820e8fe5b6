/** The gateway's `JwtUtil`: stripping the `Bearer ` prefix from the
    Authorization header, and the role check on the token's roles claim. The
    signature check and claim parsing are a parameter `rolesOf` that gives the
    roles claim of a token, None when the claim is absent. */
module GatewayJwt {
  import opened Common

  const BearerPrefix: string := "Bearer "

  /** `getTokenFromHeader`: the text after the 7-character prefix, or the
      header unchanged (a null header included). */
  function GetTokenFromHeader(header: Option<string>): (r: Option<string>)
    ensures header.Some? && StartsWith(header.value, BearerPrefix) ==>
      r.Some? && BearerPrefix + r.value == header.value && |r.value| == |header.value| - 7
    ensures !(header.Some? && StartsWith(header.value, BearerPrefix)) ==> r == header
  {
    if header.Some? && StartsWith(header.value, BearerPrefix) then Some(header.value[7..]) else header
  }

  /** A header the stripping leaves alone. */
  predicate Plain(header: Option<string>)
  {
    !(header.Some? && StartsWith(header.value, BearerPrefix))
  }

  /** `n` stripping steps in a row, as the call chain performs them. */
  function StripTimes(header: Option<string>, n: nat): Option<string>
    decreases n
  {
    if n == 0 then header else StripTimes(GetTokenFromHeader(header), n - 1)
  }

  /** Stripping any number of times leaves a plain header alone. */
  lemma {:induction false} PlainIsFixed(header: Option<string>, n: nat)
    requires Plain(header)
    ensures StripTimes(header, n) == header
  {
    if n > 0 {
      PlainIsFixed(header, n - 1);
    }
  }

  /** Once the first strip leaves a plain token, the repeated stripping along
      the call chain has the effect of stripping once. */
  lemma {:induction false} RepeatedStripIsStripOnce(header: Option<string>, n: nat)
    requires n >= 1 && Plain(GetTokenFromHeader(header))
    ensures StripTimes(header, n) == GetTokenFromHeader(header)
  {
    PlainIsFixed(GetTokenFromHeader(header), n - 1);
  }

  /** The number of strips between `isAuthorized` and the parser:
      `isAuthorized`, `extractRoles`, `extractClaim`, `extractAllClaims`. */
  const StripsBeforeParse: nat := 4

  /** `contains` is being a middle piece of the text. */
  lemma ContainsIffInfix(s: string, t: string)
    ensures Contains(s, t) <==> exists a, b :: s == a + t + b
  {
    if Contains(s, t) {
      var k :| 0 <= k <= |s| - |t| && OccursAt(s, t, k);
      assert s == s[..k] + t + s[k + |t|..];
    }
    if exists a, b :: s == a + t + b {
      var a, b :| s == a + t + b;
      ContainsInContext(a, t, b);
    }
  }

  /** `isAuthorized`: the roles claim is present and the role occurs in it as
      a piece of text, whatever surrounds it. */
  function IsAuthorized(header: Option<string>, role: string, rolesOf: Option<string> -> Option<string>): (ok: bool)
    ensures ok <==>
      var claim := rolesOf(StripTimes(header, StripsBeforeParse));
      claim.Some? && exists a, b :: claim.value == a + role + b
  {
    var claim := rolesOf(StripTimes(header, StripsBeforeParse));
    if claim.None? then false
    else
      ContainsIffInfix(claim.value, role);
      Contains(claim.value, role)
  }

  /** For an ordinary `Bearer <token>` header the claim is read from `<token>`. */
  lemma AuthorizedReadsBearerToken(token: string, role: string, rolesOf: Option<string> -> Option<string>)
    requires !StartsWith(token, BearerPrefix)
    ensures IsAuthorized(Some(BearerPrefix + token), role, rolesOf) <==>
      rolesOf(Some(token)).Some? && Contains(rolesOf(Some(token)).value, role)
  {
    var h := Some(BearerPrefix + token);
    assert StartsWith(h.value, BearerPrefix);
    assert GetTokenFromHeader(h) == Some(token);
    RepeatedStripIsStripOnce(h, StripsBeforeParse);
  }

  /** A substring occurs in any text that extends it on either side. */
  lemma ContainsInContext(a: string, t: string, b: string)
    ensures Contains(a + t + b, t)
  {
    assert OccursAt(a + t + b, t, |a|) by {
      assert (a + t + b)[|a|..|a| + |t|] == t;
    }
  }

  /** Every role of a comma-joined list is a piece of the joined text. */
  lemma {:induction false} RoleInJoinedClaim(roles: seq<string>, i: nat)
    requires i < |roles|
    ensures exists a, b :: Join(roles, ',') == a + roles[i] + b
  {
    if |roles| == 1 {
      assert Join(roles, ',') == [] + roles[0] + [];
    } else if i == 0 {
      assert Join(roles, ',') == [] + roles[0] + ([','] + Join(roles[1..], ','));
    } else {
      RoleInJoinedClaim(roles[1..], i - 1);
      var a, b :| Join(roles[1..], ',') == a + roles[1..][i - 1] + b;
      assert Join(roles, ',') == (roles[0] + [','] + a) + roles[i] + b;
    }
  }

  /** A claim that lists the wanted role among others, comma separated,
      authorizes it. */
  lemma ClaimListingRoleAuthorizes(header: Option<string>, roles: seq<string>, i: nat,
                                   rolesOf: Option<string> -> Option<string>)
    requires i < |roles|
    requires rolesOf(StripTimes(header, StripsBeforeParse)) == Some(Join(roles, ','))
    ensures IsAuthorized(header, roles[i], rolesOf)
  {
    RoleInJoinedClaim(roles, i);
  }
}
