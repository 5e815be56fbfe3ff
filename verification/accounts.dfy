/**
 * What the tray reads from an account (the account state object owned by the
 * account manager): its identity, display fields, server URL, connection
 * status and capability flags, plus the avatar image the avatar job left on
 * it. The account itself is an external collaborator; only these snapshots
 * enter the model.
 */
module Accounts {
  import opened Wrappers
  import opened Strings

  /** Opaque identity of one configured account (the account pointer in the source). */
  type AccountId = nat

  /** Opaque handle of an image the avatar collaborator already cropped to a circle. */
  type ImageHandle = nat

  /** Connection states reported by the account state object. */
  datatype ConnectionStatus =
    | NotYetConnected
    | Connected
    | Disconnected
    | ServiceUnavailable
    | MaintenanceMode
    | NetworkError
    | ConfigurationError
    | AskingCredentials
    | SignedOut

  datatype Account = Account(
    id: AccountId,
    davDisplayName: string,        // name reported by the server; empty before the first login
    credentialsUser: string,       // login name from the credentials
    displayName: string,           // "user@host" form used on activity records
    url: string,                   // server URL as text
    status: ConnectionStatus,
    hasTalk: bool,
    hasActivities: bool,
    avatar: Option<ImageHandle>)   // circular avatar, None when the crop yields a null image

  const Https := "https://"
  const Http := "http://"

  /**
   * The shortened server URL: every "https://", then every "http://",
   * replaced by nothing. It is never longer than the URL, and a leading
   * "https://" takes at least its own length off.
   */
  function Shorten(url: string): (r: string)
    ensures |r| <= |url|
    ensures OccursAt(url, Https, 0) ==> |r| <= |url| - |Https|
  {
    RemoveAll(RemoveAll(url, Https), Http)
  }

  /** "http://" never starts an occurrence of "https://" in a text it begins. */
  lemma HttpPrefixStartsNoHttps(h: string, i: nat)
    requires i < |Http|
    ensures !OccursAt(Http + h, Https, i)
  {
    var s := Http + h;
    if i + |Https| <= |s| {
      if i == 0 {
        assert s[i..i + |Https|][4] != Https[4];
      } else {
        assert forall k :: 1 <= k < |Http| ==> Http[k] != 'h';
        assert s[i..i + |Https|][0] == s[i] == Http[i];
      }
    }
  }

  /** "http://" followed by text free of "https://" does not contain "https://" either. */
  lemma HttpPrefixHasNoHttps(h: string)
    requires !Contains(h, Https)
    ensures !Contains(Http + h, Https)
  {
    var s := Http + h;
    forall i: nat | i <= |s|
      ensures !OccursAt(s, Https, i)
    {
      if i < |Http| {
        HttpPrefixStartsNoHttps(h, i);
      } else if i + |Https| <= |s| {
        assert s[i..i + |Https|] == h[i - |Http|..i - |Http| + |Https|];
        assert !OccursAt(h, Https, i - |Http|);
      }
    }
  }

  /**
   * A URL made of one leading scheme and a host part free of both schemes
   * shortens to the host part.
   */
  lemma {:induction false} ShortenStripsLeadingScheme(h: string)
    requires !Contains(h, Https) && !Contains(h, Http)
    ensures Shorten(Https + h) == h
    ensures Shorten(Http + h) == h
  {
    RemoveAllLeading(Https, h);
    RemoveAllAbsent(h, Https);
    RemoveAllAbsent(h, Http);
    HttpPrefixHasNoHttps(h);
    RemoveAllAbsent(Http + h, Https);
    RemoveAllLeading(Http, h);
  }

  /** A URL that mentions neither scheme is left as it is. */
  lemma ShortenWithoutScheme(url: string)
    requires !Contains(url, Https) && !Contains(url, Http)
    ensures Shorten(url) == url
  {
    RemoveAllAbsent(url, Https);
    RemoveAllAbsent(url, Http);
  }

  /** Host part of the example server URL. */
  const ExampleHost := "cloud.example.com"

  /** Both schemes are stripped from the example server URL. */
  lemma ShortenExamples()
    ensures Shorten(Https + ExampleHost) == ExampleHost
    ensures Shorten(Http + ExampleHost) == ExampleHost
  {
    assert forall k :: 0 <= k < |ExampleHost| ==> ExampleHost[k] != 'h';
    AbsentFirstCharacter(ExampleHost, Https);
    AbsentFirstCharacter(ExampleHost, Http);
    ShortenStripsLeadingScheme(ExampleHost);
  }

  /**
   * Every occurrence goes, not only a leading one: in a URL whose query
   * string holds a second URL, both schemes are removed, whatever the two
   * parts hold as long as neither mentions a scheme itself.
   */
  lemma ShortenRemovesInnerScheme(a: string, h: string)
    requires !Contains(a, Https) && !Contains(a, Http)
    requires !Contains(h, Https) && !Contains(h, Http)
    ensures Shorten(Https + a + Http + h) == a + h
  {
    Regroup(Https, a, Http, h);
    InnerSchemeHttpsPass(a, h);
    InnerSchemeHttpPass(a, h);
  }

  /** Concatenation regrouped to the right. */
  lemma Regroup(w: string, x: string, y: string, z: string)
    ensures w + x + y + z == w + (x + (y + z))
  {
  }

  /** The "https://" pass drops the leading scheme and nothing else. */
  lemma InnerSchemeHttpsPass(a: string, h: string)
    requires !Contains(a, Https) && !Contains(h, Https)
    ensures RemoveAll(Https + (a + (Http + h)), Https) == a + (Http + h)
  {
    var rest := Http + h;
    RemoveAllLeading(Https, a + rest);
    NoStraddle(a, rest, Https);
    RemoveAllAfterCleanPrefix(a, rest, Https);
    HttpPrefixHasNoHttps(h);
    RemoveAllAbsent(rest, Https);
  }

  /** The "http://" pass then drops the inner scheme. */
  lemma InnerSchemeHttpPass(a: string, h: string)
    requires !Contains(a, Http) && !Contains(h, Http)
    ensures RemoveAll(a + (Http + h), Http) == a + h
  {
    NoStraddle(a, Http + h, Http);
    RemoveAllAfterCleanPrefix(a, Http + h, Http);
    RemoveAllLeading(Http, h);
    RemoveAllAbsent(h, Http);
  }
}
