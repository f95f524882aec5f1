/** The sign-in context (src/context/MeetAuthContext.jsx): reading the payload of the ID token,
    the display name chosen from its claims, and the `tokens` and `user` the context hands to
    the pages. `atob` and `JSON.parse` are parameters; the `localStorage` effects are left out. */
module MeetAuth {
  import opened Text
  import opened Dynamic
  import MeetApi

  /** `atob`: `None` where it throws (text that is not base64). */
  type Base64Decoder = string -> Option<string>

  // -----------------------------------------------------------------------------------------
  // `decodeJwtPayload`

  /** `s.replace(/<from>/g, to)` for a one-character pattern. */
  function ReplaceChar(s: string, from: char, to: char): (r: string)
    ensures |r| == |s|
    ensures forall i | 0 <= i < |s| :: r[i] == (if s[i] == from then to else s[i])
  {
    if s == [] then [] else [if s[0] == from then to else s[0]] + ReplaceChar(s[1..], from, to)
  }

  /** The payload segment turned from the URL-safe alphabet into the standard one (section 5 of
      RFC 4648): `-` becomes `+` and `_` becomes `/`. */
  function ToBase64(segment: string): (b: string)
    ensures |b| == |segment|
    ensures '-' !in b && '_' !in b
    ensures forall i | 0 <= i < |b| ::
              b[i] == (if segment[i] == '-' then '+' else if segment[i] == '_' then '/' else segment[i])
  {
    var b := ReplaceChar(ReplaceChar(segment, '-', '+'), '_', '/');
    assert forall i | 0 <= i < |b| :: b[i] != '-' && b[i] != '_';
    b
  }

  /** The other direction, the encoder's: `+` becomes `-` and `/` becomes `_`. */
  function ToBase64Url(b: string): (segment: string)
    ensures |segment| == |b| && '+' !in segment && '/' !in segment
  {
    var s := ReplaceChar(ReplaceChar(b, '+', '-'), '/', '_');
    assert forall i | 0 <= i < |s| :: s[i] != '+' && s[i] != '/';
    s
  }

  /** A URL-safe segment survives the trip to the standard alphabet and back. */
  lemma Base64UrlRoundTrip(segment: string)
    requires '+' !in segment && '/' !in segment
    ensures ToBase64Url(ToBase64(segment)) == segment
  {
    var back := ToBase64Url(ToBase64(segment));
    assert forall i | 0 <= i < |segment| :: back[i] == segment[i];
  }

  /** And standard base64 text survives the trip to the URL-safe alphabet and back. */
  lemma Base64RoundTrip(b: string)
    requires '-' !in b && '_' !in b
    ensures ToBase64(ToBase64Url(b)) == b
  {
    var back := ToBase64(ToBase64Url(b));
    assert forall i | 0 <= i < |b| :: back[i] == b[i];
  }

  /** `Math.ceil(n / 4) * 4`. */
  function PaddedLength(n: nat): (m: nat)
    ensures m % 4 == 0 && n <= m < n + 4
  {
    (if n % 4 == 0 then n / 4 else n / 4 + 1) * 4
  }

  /** It is the smallest multiple of 4 that is at least `n`. */
  lemma PaddedLengthLeast(n: nat, m: nat)
    requires m % 4 == 0 && n <= m
    ensures PaddedLength(n) <= m
  {
  }

  /** `s.padEnd(target, fill)` for a one-character fill. */
  function PadEnd(s: string, target: int, fill: char): (r: string)
    ensures |r| == if target <= |s| then |s| else target
    ensures StartsWith(r, s)
    ensures forall i | |s| <= i < |r| :: r[i] == fill
    decreases target - |s|
  {
    if target <= |s| then s
    else
      var r := PadEnd(s + [fill], target, fill);
      assert r[..|s|] == (s + [fill])[..|s|];
      r
  }

  /** The base64 text padded with `=`. */
  function Padded(b: string): (p: string)
    ensures |p| % 4 == 0 && |b| <= |p| < |b| + 4 && StartsWith(p, b)
    ensures forall i | |b| <= i < |p| :: p[i] == '='
  {
    PadEnd(b, PaddedLength(|b|), '=')
  }

  /** The padding completes the last group of four and no more; text that already fills its
      groups is left as it is. */
  lemma PaddedShape(b: string)
    ensures var p := Padded(b);
            |p| % 4 == 0 && |b| <= |p| < |b| + 4 && p[..|b|] == b
            && (forall i | |b| <= i < |p| :: p[i] == '=')
            && (|b| % 4 == 0 ==> p == b)
  {
    var p := Padded(b);
    if |b| % 4 == 0 {
      assert p[..|b|] == p;
    }
  }

  /** The payload segment decoded: converted, padded, through `atob` and then `JSON.parse`; a
      throw on the way gives `null`. */
  function DecodeSegment(segment: string, atob: Base64Decoder, parse: MeetApi.JsonParser): (v: Value)
    ensures v != Null ==> exists json :: atob(Padded(ToBase64(segment))) == Some(json) && parse(json) == Some(v)
    ensures forall json | atob(Padded(ToBase64(segment))) == Some(json) && parse(json).Some? :: v == parse(json).value
  {
    match atob(Padded(ToBase64(segment)))
    case None => Null
    case Some(json) =>
      match parse(json)
      case None => Null
      case Some(v) => v
  }

  /** `decodeJwtPayload(token)`: `null` for a missing, empty or non-string token and for a token
      without a second `.`-separated part; otherwise the second part decoded. */
  function DecodeJwtPayload(token: Value, atob: Base64Decoder, parse: MeetApi.JsonParser): (v: Value)
    ensures !token.Str? || token.s == [] ==> v == Null
    ensures token.Str? && '.' !in token.s ==> v == Null
    ensures token.Str? && |Split(token.s, '.')| >= 2 ==> v == DecodeSegment(Split(token.s, '.')[1], atob, parse)
  {
    if !Truthy(token) || !token.Str? then Null
    else
      var parts := Split(token.s, '.');
      SplitJoin(token.s, '.');
      assert '.' !in token.s ==> Count(token.s, '.') == 0 by {
        CountAbsent(token.s, '.');
      }
      if |parts| < 2 then Null else DecodeSegment(parts[1], atob, parse)
  }

  lemma {:induction false} CountAbsent(s: string, c: char)
    ensures c !in s ==> Count(s, c) == 0
  {
    if s != [] {
      CountAbsent(s[1..], c);
      assert c !in s ==> c !in s[1..];
    }
  }

  /** A token `header.payload.signature` (or `header.payload`) with dot-free header and payload
      decodes its payload segment. */
  lemma JwtPayloadSegment(header: string, payload: string, rest: string, atob: Base64Decoder, parse: MeetApi.JsonParser)
    requires '.' !in header && '.' !in payload && (rest == [] || rest[0] == '.')
    ensures DecodeJwtPayload(Str(header + ['.'] + payload + rest), atob, parse)
            == DecodeSegment(payload, atob, parse)
  {
    var token := header + ['.'] + payload + rest;
    AppendAssociative(header + ['.'], payload, rest);
    SplitAfter(header, '.', payload + rest);
    SplitFirstOf(payload, rest, '.');
    assert Split(token, '.')[1] == Split(payload + rest, '.')[0];
  }

  /** Text without a separator followed by anything starting at a separator (or nothing) is the
      first piece. */
  lemma SplitFirstOf(a: string, b: string, sep: char)
    requires sep !in a
    ensures b == [] || b[0] == sep ==> Split(a + b, sep)[0] == a
  {
    if b == [] {
      assert a + b == a;
      NoSepSplit(a, sep);
    } else if b[0] == sep {
      assert a + b == a + [sep] + b[1..];
      SplitAfter(a, sep, b[1..]);
    }
  }

  // -----------------------------------------------------------------------------------------
  // `deriveDisplayName`

  /** What one step of the fallback chain does: nothing, answer, or throw (a string method
      called on a truthy value that is not a string). */
  datatype Pick = Skip | Take(name: Value) | Crash

  /** `email.split('@')[0] || ''`. */
  function EmailLocalPart(email: string): (local: string)
    ensures '@' !in local && StartsWith(email, local)
    ensures '@' in email ==> |local| < |email| && email[|local|] == '@'
  {
    SplitFirst(email, '@');
    Split(email, '@')[0]
  }

  /** The local part is what comes before the first `@`. */
  lemma EmailLocalPartOf(local: string, domain: string)
    requires '@' !in local
    ensures EmailLocalPart(local + "@" + domain) == local
  {
    SplitAfter(local, '@', domain);
  }

  /** `decoded?.name || decoded?.given_name`. */
  function FullNameRule(decoded: Value): Pick {
    var fullName := Or(Get(decoded, "name"), Get(decoded, "given_name"));
    if Truthy(fullName) then Take(fullName) else Skip
  }

  /** `preferred_username`, unless it is one of the generated `google_…` names. */
  function PreferredRule(decoded: Value): Pick {
    match StringOr(Get(decoded, "preferred_username"), "")
    case None => Crash
    case Some(p) => if p != [] && !StartsWith(p, "google_") then Take(Str(p)) else Skip
  }

  /** The local part of a non-empty e-mail, when it is not empty. */
  function EmailRule(decoded: Value): Pick {
    match StringOr(Get(decoded, "email"), "")
    case None => Crash
    case Some(e) => if e != [] && EmailLocalPart(e) != [] then Take(Str(EmailLocalPart(e))) else Skip
  }

  /** `decoded?.['cognito:username']`. */
  function CognitoRule(decoded: Value): Pick {
    var c := Or(Get(decoded, "cognito:username"), Str(""));
    if Truthy(c) then Take(c) else Skip
  }

  function Rules(decoded: Value): (rules: seq<Pick>)
    ensures |rules| == 4 && !rules[0].Crash? && !rules[3].Crash?
    ensures forall i | 0 <= i < |rules| && rules[i].Take? :: Truthy(rules[i].name)
  {
    [FullNameRule(decoded), PreferredRule(decoded), EmailRule(decoded), CognitoRule(decoded)]
  }

  /** The reference reading of a fallback chain: the first step that does not skip decides. */
  function FirstPick(picks: seq<Pick>, default: Value): (r: Option<Value>)
    ensures r.None? ==> Crash in picks
    ensures r.Some? ==> r.value == default || Take(r.value) in picks
    ensures (forall i | 0 <= i < |picks| :: picks[i].Skip?) ==> r == Some(default)
  {
    if picks == [] then Some(default)
    else match picks[0]
      case Skip => FirstPick(picks[1..], default)
      case Take(v) => Some(v)
      case Crash => None
  }

  /** `deriveDisplayName(decoded)`; `None` where it throws. The name is never empty. */
  function DeriveDisplayName(decoded: Value): (name: Option<Value>)
    ensures name.Some? ==> Truthy(name.value)
  {
    var fullName := Or(Get(decoded, "name"), Get(decoded, "given_name"));
    if Truthy(fullName) then Some(fullName)
    else match StringOr(Get(decoded, "preferred_username"), "")
      case None => None
      case Some(preferred) =>
        if preferred != [] && !StartsWith(preferred, "google_") then Some(Str(preferred))
        else match StringOr(Get(decoded, "email"), "")
          case None => None
          case Some(email) =>
            if email != [] && EmailLocalPart(email) != [] then Some(Str(EmailLocalPart(email)))
            else
              var cognito := Or(Get(decoded, "cognito:username"), Str(""));
              if Truthy(cognito) then Some(cognito) else Some(Str("User"))
  }

  lemma DeriveIsFirstPick(decoded: Value)
    ensures DeriveDisplayName(decoded) == FirstPick(Rules(decoded), Str("User"))
  {
    var r := Rules(decoded);
    var user := Str("User");
    assert r[1..][1..][1..][1..] == [];
    assert FirstPick(r[3..], user) == if CognitoRule(decoded).Take? then Some(CognitoRule(decoded).name) else Some(user) by {
      assert r[3..][1..] == r[1..][1..][1..][1..];
    }
    assert FirstPick(r[2..], user) == match EmailRule(decoded)
      case Skip => FirstPick(r[3..], user) case Take(v) => Some(v) case Crash => None
    by {
      assert r[2..][1..] == r[3..];
    }
    assert FirstPick(r[1..], user) == match PreferredRule(decoded)
      case Skip => FirstPick(r[2..], user) case Take(v) => Some(v) case Crash => None
    by {
      assert r[1..][1..] == r[2..];
    }
  }

  /** Step `j` decides exactly when every earlier step skips. */
  lemma {:induction false} FirstPickDecides(picks: seq<Pick>, default: Value, j: nat)
    requires j < |picks| && !picks[j].Skip?
    requires forall k | 0 <= k < j :: picks[k].Skip?
    ensures FirstPick(picks, default) == if picks[j].Take? then Some(picks[j].name) else None
  {
    if j > 0 {
      assert picks[0].Skip?;
      assert forall k | 0 <= k < j - 1 :: picks[1..][k] == picks[k + 1];
      FirstPickDecides(picks[1..], default, j - 1);
    }
  }

  lemma {:induction false} FirstPickDefault(picks: seq<Pick>, default: Value)
    requires forall k | 0 <= k < |picks| :: picks[k].Skip?
    ensures FirstPick(picks, default) == Some(default)
  {
    if picks != [] {
      assert picks[0].Skip?;
      assert forall k | 0 <= k < |picks| - 1 :: picks[1..][k] == picks[k + 1];
      FirstPickDefault(picks[1..], default);
    }
  }

  /** The display name comes from the first of name/given_name, preferred_username, e-mail
      local part and cognito:username that applies; `User` when none does. */
  lemma DisplayNamePrecedence(decoded: Value, j: nat)
    requires j < 4 && !Rules(decoded)[j].Skip?
    requires forall k | 0 <= k < j :: Rules(decoded)[k].Skip?
    ensures DeriveDisplayName(decoded)
            == if Rules(decoded)[j].Take? then Some(Rules(decoded)[j].name) else None
  {
    DeriveIsFirstPick(decoded);
    FirstPickDecides(Rules(decoded), Str("User"), j);
  }

  lemma DisplayNameDefault(decoded: Value)
    requires forall k | 0 <= k < 4 :: Rules(decoded)[k].Skip?
    ensures DeriveDisplayName(decoded) == Some(Str("User"))
  {
    DeriveIsFirstPick(decoded);
    FirstPickDefault(Rules(decoded), Str("User"));
  }

  /** A generated `google_…` username is passed over for the e-mail's local part. */
  lemma GoogleUsernameSkipped(suffix: string, local: string, domain: string)
    requires '@' !in local && local != []
    ensures var decoded := Obj(map["preferred_username" := Str("google_" + suffix),
                                   "email" := Str(local + "@" + domain)]);
            DeriveDisplayName(decoded) == Some(Str(local))
  {
    var p := "google_" + suffix;
    assert p[..7] == "google_";
    EmailLocalPartOf(local, domain);
  }

  // -----------------------------------------------------------------------------------------
  // `tokens` and `user`

  /** `oidc.user.<field> || ''`. */
  function TokenOf(oidcUser: Value, field: string): Value {
    Or(Get(oidcUser, field), Str(""))
  }

  function LiveTokens(oidcUser: Value): (tokens: Value)
    ensures tokens.Obj? && tokens.fields.Keys == {"idToken", "accessToken", "refreshToken"}
    ensures forall k | k in tokens.fields :: Truthy(tokens.fields[k]) || tokens.fields[k] == Str("")
    ensures Truthy(Get(oidcUser, "id_token")) ==> tokens.fields["idToken"] == Get(oidcUser, "id_token")
  {
    Obj(map["idToken" := TokenOf(oidcUser, "id_token"),
            "accessToken" := TokenOf(oidcUser, "access_token"),
            "refreshToken" := TokenOf(oidcUser, "refresh_token")])
  }

  const EmptyTokens: Value := Obj(map["idToken" := Str(""), "accessToken" := Str(""), "refreshToken" := Str("")])

  /** `tokens`: the live tokens of a signed-in user, else the cached ones (`??`: only `null` and
      `undefined` are passed over), else empty tokens. */
  function CurrentTokens(oidcUser: Value, cachedTokens: Value): (tokens: Value)
    ensures Truthy(oidcUser) ==> tokens == LiveTokens(oidcUser)
    ensures !Truthy(oidcUser) && cachedTokens != Null && cachedTokens != Undefined ==> tokens == cachedTokens
    ensures !Truthy(oidcUser) && (cachedTokens == Null || cachedTokens == Undefined) ==> tokens == EmptyTokens
  {
    if Truthy(oidcUser) then LiveTokens(oidcUser)
    else if cachedTokens == Null || cachedTokens == Undefined then EmptyTokens
    else cachedTokens
  }

  /** Every live token is a non-empty value or `''`, never `undefined` or `null`. */
  lemma LiveTokensDefined(oidcUser: Value, key: string)
    requires key in {"idToken", "accessToken", "refreshToken"}
    ensures var t := Get(LiveTokens(oidcUser), key); Truthy(t) || t == Str("")
  {
  }

  /** The user the pages see. */
  datatype User = User(email: Value, userId: Value, name: Value)

  /** `user`: `null` (`NoUser`) for a falsy payload; `Throws` where the display name throws. */
  datatype UserState = NoUser | SignedIn(user: User) | Throws

  function UserOf(decoded: Value): (u: UserState)
    ensures u.NoUser? <==> !Truthy(decoded)
    ensures u.Throws? <==> Truthy(decoded) && DeriveDisplayName(decoded).None?
    ensures u.SignedIn? ==> Some(u.user.name) == DeriveDisplayName(decoded) && Truthy(u.user.name)
    ensures u.SignedIn? ==> u.user.email == Or(Get(decoded, "email"), Str(""))
                            && u.user.userId == Or(Get(decoded, "sub"), Str(""))
  {
    if !Truthy(decoded) then NoUser
    else match DeriveDisplayName(decoded)
      case None => Throws
      case Some(name) =>
        SignedIn(User(Or(Get(decoded, "email"), Str("")), Or(Get(decoded, "sub"), Str("")), name))
  }

  /** The whole derivation of the render: the tokens, then the payload of their ID token, then the
      user. */
  function ContextUser(oidcUser: Value, cachedTokens: Value, atob: Base64Decoder, parse: MeetApi.JsonParser): (u: UserState)
    ensures u.SignedIn? ==> Truthy(Get(CurrentTokens(oidcUser, cachedTokens), "idToken")) && Truthy(u.user.name)
    ensures !u.NoUser? ==> Truthy(DecodeJwtPayload(Get(CurrentTokens(oidcUser, cachedTokens), "idToken"), atob, parse))
  {
    UserOf(DecodeJwtPayload(Get(CurrentTokens(oidcUser, cachedTokens), "idToken"), atob, parse))
  }

  /** Signed out with nothing cached, there is no user, whatever the decoders do. */
  lemma SignedOutNoUser(oidcUser: Value, cachedTokens: Value, atob: Base64Decoder, parse: MeetApi.JsonParser)
    requires !Truthy(oidcUser) && (cachedTokens == Null || cachedTokens == Undefined)
    ensures ContextUser(oidcUser, cachedTokens, atob, parse) == NoUser
  {
    assert Get(EmptyTokens, "idToken") == Str("");
  }

  /** A signed-in user's ID token is the one decoded, whatever is cached. */
  lemma LiveTokenDecoded(oidcUser: Value, cachedTokens: Value, atob: Base64Decoder, parse: MeetApi.JsonParser)
    requires Truthy(oidcUser)
    ensures ContextUser(oidcUser, cachedTokens, atob, parse)
            == UserOf(DecodeJwtPayload(TokenOf(oidcUser, "id_token"), atob, parse))
  {
    assert Get(LiveTokens(oidcUser), "idToken") == TokenOf(oidcUser, "id_token");
  }
}
