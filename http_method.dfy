/**
 * The request methods the network layer can send: the methods of section 9 of
 * RFC 9110 and PATCH from RFC 5789, each with its method token as raw value.
 */
module HTTPMethods {
  import opened Wrappers

  datatype HTTPMethod = Connect | Delete | Get | Head | Options | Patch | Post | Put | Trace
  {
    /** The method token sent on the request line. */
    function RawValue(): (token: string)
      ensures |token| >= 3
      ensures forall k :: 0 <= k < |token| ==> 'A' <= token[k] <= 'Z'
    {
      match this
      case Connect => "CONNECT"
      case Delete => "DELETE"
      case Get => "GET"
      case Head => "HEAD"
      case Options => "OPTIONS"
      case Patch => "PATCH"
      case Post => "POST"
      case Put => "PUT"
      case Trace => "TRACE"
    }

    /** `HTTPMethod(rawValue:)`: the method whose token is exactly `s`, if any. */
    static function FromRaw(s: string): (r: Option<HTTPMethod>)
      ensures r.Some? ==> r.value.RawValue() == s
      ensures r.None? ==> forall m: HTTPMethod :: m.RawValue() != s
    {
      if s == "CONNECT" then Some(Connect)
      else if s == "DELETE" then Some(Delete)
      else if s == "GET" then Some(Get)
      else if s == "HEAD" then Some(Head)
      else if s == "OPTIONS" then Some(Options)
      else if s == "PATCH" then Some(Patch)
      else if s == "POST" then Some(Post)
      else if s == "PUT" then Some(Put)
      else if s == "TRACE" then Some(Trace)
      else None
    }
  }

  /** No two methods share a token. */
  lemma RawValueInjective(m: HTTPMethod, n: HTTPMethod)
    ensures m.RawValue() == n.RawValue() ==> m == n
  {
  }

  /** Parsing the token of a method gives that method back. */
  lemma RoundTrip(m: HTTPMethod)
    ensures HTTPMethod.FromRaw(m.RawValue()) == Some(m)
  {
    RawValueInjective(m, HTTPMethod.FromRaw(m.RawValue()).value);
  }

  /** A token parses exactly when it is the token of some method, and then back to it. */
  lemma FromRawInverse(s: string)
    ensures HTTPMethod.FromRaw(s).Some? <==> exists m: HTTPMethod :: m.RawValue() == s
    ensures HTTPMethod.FromRaw(s).Some? ==> HTTPMethod.FromRaw(s).value.RawValue() == s
  {
    if m: HTTPMethod :| m.RawValue() == s {
      RoundTrip(m);
    }
  }

  /** Parsing is case-sensitive: a token containing a lower-case letter is no method. */
  lemma LowerCaseIsNoMethod(s: string, k: int)
    requires 0 <= k < |s| && 'a' <= s[k] <= 'z'
    ensures HTTPMethod.FromRaw(s) == None
  {
  }

  /** The lower-case spelling of GET is rejected. */
  lemma LowerCaseGetRejected()
    ensures HTTPMethod.FromRaw("get") == None
  {
    LowerCaseIsNoMethod("get", 0);
  }
}
