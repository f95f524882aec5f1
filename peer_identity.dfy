/** The pure helpers of the meeting room (src/pages/MeetingRoom.jsx): identity keys, the
    offer tie-break and the signaling URL. */
module PeerIdentity {
  import opened Text

  /** A normalised participant identity: trimmed and lower-cased. */
  type Key = string

  /** `safeId`: trim, then lower-case. Written as removing one white-space character at either
      end at a time; `SafeIdIsLowerTrim` shows this is lower-casing the trimmed value. */
  function SafeId(value: string): Key
    decreases |value|
  {
    if value != [] && IsJsSpace(value[0]) then SafeId(value[1..])
    else if value != [] && IsJsSpace(value[|value| - 1]) then SafeId(value[..|value| - 1])
    else Lower(value)
  }

  /** `safeId(v)` is `v.trim().toLowerCase()`. */
  lemma {:induction false} SafeIdIsLowerTrim(value: string)
    ensures SafeId(value) == Lower(Trim(value))
    decreases |value|
  {
    if value != [] && IsJsSpace(value[0]) {
      SafeIdIsLowerTrim(value[1..]);
    } else if value != [] && IsJsSpace(value[|value| - 1]) {
      SafeIdIsLowerTrim(value[..|value| - 1]);
    }
  }

  /** What a key looks like: no longer than the value, no white space at either end, and no
      upper-case letter. */
  lemma {:induction false} SafeIdShape(value: string)
    ensures var k := SafeId(value);
            && |k| <= |value|
            && (k != [] ==> !IsJsSpace(k[0]) && !IsJsSpace(k[|k| - 1]))
            && forall i | 0 <= i < |k| :: !IsAsciiUpper(k[i])
    decreases |value|
  {
    if value != [] && IsJsSpace(value[0]) {
      SafeIdShape(value[1..]);
    } else if value != [] && IsJsSpace(value[|value| - 1]) {
      SafeIdShape(value[..|value| - 1]);
    } else {
      JsSpaceIgnoresCase();
    }
  }

  /** A key is already in normal form: normalising it again changes nothing, so the same
      participant can never be tracked under two keys. */
  lemma SafeIdIdempotent(value: string)
    ensures SafeId(SafeId(value)) == SafeId(value)
  {
    var t := Trim(value);
    SafeIdIsLowerTrim(value);
    SafeIdIsLowerTrim(Lower(t));
    TrimLower(t);
    TrimByIdempotent(value, IsJsSpace);
    LowerIdempotent(t);
  }

  /** Trimming before normalising changes nothing. */
  lemma SafeIdOfTrim(value: string)
    ensures SafeId(Trim(value)) == SafeId(value)
  {
    SafeIdIsLowerTrim(value);
    SafeIdIsLowerTrim(Trim(value));
    TrimByIdempotent(value, IsJsSpace);
  }

  /** Normalising keeps emptiness: a key is empty exactly when the value is blank. */
  lemma SafeIdEmpty(value: string)
    ensures SafeId(value) == [] <==> Trim(value) == []
  {
    SafeIdIsLowerTrim(value);
  }

  /** JavaScript `a < b` on strings: lexicographic order, a proper prefix coming first. */
  predicate LexLess(a: string, b: string)
    decreases |a|
  {
    if a == [] then b != []
    else b != [] && (a[0] < b[0] || (a[0] == b[0] && LexLess(a[1..], b[1..])))
  }

  lemma {:induction false} LexLessIrreflexive(a: string)
    ensures !LexLess(a, a)
  {
    if a != [] { LexLessIrreflexive(a[1..]); }
  }

  lemma {:induction false} LexLessAsymmetric(a: string, b: string)
    ensures LexLess(a, b) ==> !LexLess(b, a)
  {
    if a != [] && b != [] && a[0] == b[0] { LexLessAsymmetric(a[1..], b[1..]); }
  }

  lemma {:induction false} LexLessTransitive(a: string, b: string, c: string)
    requires LexLess(a, b) && LexLess(b, c)
    ensures LexLess(a, c)
  {
    if a != [] && a[0] == b[0] && b[0] == c[0] {
      LexLessTransitive(a[1..], b[1..], c[1..]);
    }
  }

  lemma {:induction false} LexLessTotal(a: string, b: string)
    requires a != b
    ensures LexLess(a, b) || LexLess(b, a)
  {
    if a != [] && b != [] && a[0] == b[0] {
      assert a == [a[0]] + a[1..] && b == [b[0]] + b[1..];
      LexLessTotal(a[1..], b[1..]);
    }
  }

  /** `shouldInitiateOffer`: the side whose key is lower sends the offer. */
  predicate ShouldInitiateOffer(selfEmail: string, targetEmail: string)
    ensures ShouldInitiateOffer(selfEmail, targetEmail) ==>
              SafeId(targetEmail) != [] && SafeId(selfEmail) != SafeId(targetEmail)
  {
    LexLessIrreflexive(SafeId(selfEmail));
    LexLess(SafeId(selfEmail), SafeId(targetEmail))
  }

  /** The tie-break is symmetric and total: for two different keys exactly one side initiates,
      so swapping the arguments swaps the outcome; for the same key neither side does. */
  lemma InitiatorTieBreak(a: string, b: string)
    ensures SafeId(a) != SafeId(b) ==> ShouldInitiateOffer(a, b) != ShouldInitiateOffer(b, a)
    ensures SafeId(a) == SafeId(b) ==> !ShouldInitiateOffer(a, b) && !ShouldInitiateOffer(b, a)
  {
    LexLessAsymmetric(SafeId(a), SafeId(b));
    LexLessIrreflexive(SafeId(a));
    if SafeId(a) != SafeId(b) { LexLessTotal(SafeId(a), SafeId(b)); }
  }

  /** The tie-break is a strict order on keys, so in a group every pair agrees on one initiator
      and no cycle of "a offers to b" exists. */
  lemma InitiatorTransitive(a: string, b: string, c: string)
    requires ShouldInitiateOffer(a, b) && ShouldInitiateOffer(b, c)
    ensures ShouldInitiateOffer(a, c)
  {
    LexLessTransitive(SafeId(a), SafeId(b), SafeId(c));
  }

  /** `normalizeWsUrl`: the signaling URL with the meeting id and e-mail appended as query
      parameters; empty when no base URL is configured. */
  function NormalizeWsUrl(baseUrl: string, meetingId: string, email: string): (url: string)
    ensures baseUrl == [] ==> url == []
    ensures baseUrl != [] ==> StartsWith(url, Trim(baseUrl)) && |url| > |Trim(baseUrl)|
  {
    if baseUrl == [] then [] else WithQuery(Trim(baseUrl), meetingId, email)
  }

  /** The URL with the two query parameters added, `&` continuing a query string that is already there. */
  function WithQuery(url: string, meetingId: string, email: string): string {
    url + (if '?' in url then "&" else "?") + WsQuery(meetingId, email)
  }

  function WsQuery(meetingId: string, email: string): string {
    QueryParam("meetingId", meetingId) + "&" + QueryParam("email", email)
  }

  /** An empty base URL gives no URL (a blank one is still used, trimmed to nothing). Otherwise
      the URL is the trimmed base URL, a separator that starts or continues its query string,
      and exactly two parameters, whatever characters the id and e-mail hold: the encoded values
      contain no `&`, so splitting the appended part at `&` gives the two parameters back. */
  lemma WsUrlParameters(baseUrl: string, meetingId: string, email: string)
    ensures baseUrl == [] ==> NormalizeWsUrl(baseUrl, meetingId, email) == []
    ensures baseUrl != [] ==>
              var url := NormalizeWsUrl(baseUrl, meetingId, email);
              var trimmed := Trim(baseUrl);
              && StartsWith(url, trimmed)
              && url[|trimmed|] == (if '?' in trimmed then '&' else '?')
              && Split(url[|trimmed| + 1..], '&')
                 == [QueryParam("meetingId", meetingId), QueryParam("email", email)]
  {
    if baseUrl != [] {
      WithQueryShape(Trim(baseUrl), meetingId, email);
    }
  }

  lemma WithQueryShape(url: string, meetingId: string, email: string)
    ensures var r := WithQuery(url, meetingId, email);
            && StartsWith(r, url)
            && r[|url|] == (if '?' in url then '&' else '?')
            && Split(r[|url| + 1..], '&')
               == [QueryParam("meetingId", meetingId), QueryParam("email", email)]
  {
    var separator := if '?' in url then '&' else '?';
    var query := WsQuery(meetingId, email);
    assert WithQuery(url, meetingId, email) == url + [separator] + query;
    ConcatPieces(url, separator, query);
    WsQuerySplit(meetingId, email);
  }

  lemma WsQuerySplit(meetingId: string, email: string)
    ensures Split(WsQuery(meetingId, email), '&')
            == [QueryParam("meetingId", meetingId), QueryParam("email", email)]
  {
    var p1 := QueryParam("meetingId", meetingId);
    var p2 := QueryParam("email", email);
    QueryParamHasNo("meetingId", meetingId, '&');
    QueryParamHasNo("email", email, '&');
    SplitTwo(p1, p2, '&');
  }

  lemma SplitTwo(p1: string, p2: string, sep: char)
    requires sep !in p1 && sep !in p2
    ensures Split(p1 + [sep] + p2, sep) == [p1, p2]
  {
    SplitAfter(p1, sep, p2);
    NoSepSplit(p2, sep);
  }
}
