/**
 * How the vote endpoint names a client: the first entry of the
 * `x-forwarded-for` header, trimmed, else the socket's remote address, else
 * the literal "unknown". The name keys both the rate-limit counter and the
 * voter's stored choice.
 */
module ClientIdentity {
  import opened Options

  /** The code points ECMAScript counts as WhiteSpace or LineTerminator,
      which `String.prototype.trim` removes from both ends. */
  predicate IsJsWhitespace(c: char) {
    || c == '\t' || c == '\n' || c == '\U{000B}' || c == '\U{000C}' || c == '\r' || c == ' '
    || c == '\U{00A0}' || c == '\U{1680}' || ('\U{2000}' <= c <= '\U{200A}')
    || c == '\U{2028}' || c == '\U{2029}' || c == '\U{202F}' || c == '\U{205F}'
    || c == '\U{3000}' || c == '\U{FEFF}'
  }

  /** `s.split(",")[0]`: the text before the first comma, or all of `s`. */
  function FirstField(s: string): (f: string)
    ensures f <= s
    ensures ',' !in f
    ensures |f| < |s| ==> s[|f|] == ','
  {
    if s == [] || s[0] == ',' then [] else [s[0]] + FirstField(s[1..])
  }

  /** How many whitespace characters `s` starts with. */
  function LeadingWhitespace(s: string): (n: nat)
    ensures n <= |s|
    ensures forall i :: 0 <= i < n ==> IsJsWhitespace(s[i])
    ensures n < |s| ==> !IsJsWhitespace(s[n])
  {
    if |s| > 0 && IsJsWhitespace(s[0]) then 1 + LeadingWhitespace(s[1..]) else 0
  }

  /** How many whitespace characters `s` ends with. */
  function TrailingWhitespace(s: string): (n: nat)
    ensures n <= |s|
    ensures forall i :: |s| - n <= i < |s| ==> IsJsWhitespace(s[i])
    ensures n < |s| ==> !IsJsWhitespace(s[|s| - n - 1])
  {
    if |s| > 0 && IsJsWhitespace(s[|s| - 1]) then 1 + TrailingWhitespace(s[..|s| - 1]) else 0
  }

  /** The string without its leading whitespace. */
  function TrimStart(s: string): (t: string)
    ensures |t| <= |s| && t == s[|s| - |t|..]
    ensures forall i :: 0 <= i < |s| - |t| ==> IsJsWhitespace(s[i])
    ensures |t| > 0 ==> !IsJsWhitespace(t[0])
  {
    s[LeadingWhitespace(s)..]
  }

  /** The string without its trailing whitespace. */
  function TrimEnd(s: string): (t: string)
    ensures t <= s
    ensures forall i :: |t| <= i < |s| ==> IsJsWhitespace(s[i])
    ensures |t| > 0 ==> !IsJsWhitespace(t[|t| - 1])
  {
    s[..|s| - TrailingWhitespace(s)]
  }

  /** `s.trim()`: a slice of `s` that neither starts nor ends with
      whitespace, with nothing but whitespace cut on either side. */
  function Trim(s: string): (t: string)
    ensures |t| > 0 ==> !IsJsWhitespace(t[0]) && !IsJsWhitespace(t[|t| - 1])
    ensures LeadingWhitespace(s) + |t| <= |s|
    ensures t == s[LeadingWhitespace(s)..LeadingWhitespace(s) + |t|]
    ensures forall i :: 0 <= i < LeadingWhitespace(s) ==> IsJsWhitespace(s[i])
    ensures forall i :: LeadingWhitespace(s) + |t| <= i < |s| ==> IsJsWhitespace(s[i])
  {
    TrimOfSuffix(s, LeadingWhitespace(s));
    TrimEnd(TrimStart(s))
  }

  /** The trailing trim of the suffix of `s` from `lead` on is the slice of
      `s` from `lead`, with only whitespace after it. */
  lemma TrimOfSuffix(s: string, lead: nat)
    requires lead <= |s|
    ensures var t := TrimEnd(s[lead..]);
      && lead + |t| <= |s|
      && t == s[lead..lead + |t|]
      && (|t| > 0 ==> t[0] == s[lead])
      && (forall i :: lead + |t| <= i < |s| ==> IsJsWhitespace(s[i]))
  {
    var start := s[lead..];
    var t := TrimEnd(start);
    assert t == s[lead..lead + |t|];
    forall i | lead + |t| <= i < |s| ensures IsJsWhitespace(s[i]) {
      assert s[i] == start[i - lead];
    }
  }

  /** Trimming a trimmed string changes nothing. */
  lemma TrimIdempotent(s: string)
    ensures Trim(Trim(s)) == Trim(s)
  {
    var t := Trim(s);
    if |t| > 0 {
      assert TrimStart(t) == t;
      assert TrimEnd(t) == t;
    }
  }

  /** The `x-forwarded-for` header as the request object presents it: absent,
      one string, or a list of strings whose first entry is used. */
  datatype ForwardedFor = NotSent | Single(value: string) | Multiple(first: string, rest: seq<string>)

  /** A client name taken from a forwarded header: no comma, no surrounding
      whitespace, and made only of the header's own characters. */
  predicate IsHop(ip: string, header: string) {
    && ',' !in ip
    && (|ip| > 0 ==> !IsJsWhitespace(ip[0]) && !IsJsWhitespace(ip[|ip| - 1]))
    && forall c :: c in ip ==> c in header
  }

  /** `getClientIP`: a forwarded header wins over the socket address, and
      names one hop of it; without the header the socket address is used,
      else "unknown". */
  function ClientIp(forwarded: ForwardedFor, remoteAddress: Option<string>): (ip: string)
    ensures forwarded.NotSent? ==> ip == remoteAddress.GetOr("unknown")
    ensures forwarded.Single? ==> IsHop(ip, forwarded.value)
    ensures forwarded.Multiple? ==> IsHop(ip, forwarded.first)
    ensures forwarded.Single? && ',' !in forwarded.value ==> ip == Trim(forwarded.value)
    ensures forwarded.Multiple? && ',' !in forwarded.first ==> ip == Trim(forwarded.first)
  {
    match forwarded
    case Single(v) => HopOf(v)
    case Multiple(first, _) => HopOf(first)
    case NotSent => remoteAddress.GetOr("unknown")
  }

  /** The first comma-separated entry of a header, trimmed: the whole
      header when it has no comma, else the text before its first comma. */
  function HopOf(header: string): (ip: string)
    ensures IsHop(ip, header)
    ensures ',' !in header ==> ip == Trim(header)
    ensures forall k :: 0 <= k < |header| && header[k] == ',' && ',' !in header[..k] ==>
      ip == Trim(header[..k])
  {
    TrimIsSlice(FirstField(header));
    FirstFieldIsUpToFirstComma(header);
    Trim(FirstField(header))
  }

  /** With a forwarded header the name is its first hop, trimmed, whether
      the header holds that one address or more after a comma: it ignores
      the socket address and everything after the first comma, and the
      one-string and list forms of the header agree. */
  lemma ClientIpFirstHop(first: string, later: string, rest: seq<string>, remote: Option<string>)
    requires ',' !in first
    ensures ClientIp(Single(first), remote) == Trim(first)
    ensures ClientIp(Multiple(first, rest), remote) == Trim(first)
    ensures ClientIp(Single(first + "," + later), remote) == Trim(first)
    ensures ClientIp(Multiple(first + "," + later, rest), remote) == Trim(first)
  {
    FirstFieldStopsAtComma(first, later);
  }

  /** `split(",")[0]` is all of a comma-free text, and otherwise the text
      before the first comma. */
  lemma FirstFieldIsUpToFirstComma(s: string)
    ensures ',' !in s ==> FirstField(s) == s
    ensures forall k :: 0 <= k < |s| && s[k] == ',' && ',' !in s[..k] ==> FirstField(s) == s[..k]
  {
    var f := FirstField(s);
    if |f| < |s| {
      assert s[|f|] in s;
    }
    forall k | 0 <= k < |s| && s[k] == ',' && ',' !in s[..k] ensures f == s[..k] {
      assert s[..k][..|f|] == f;
    }
  }

  lemma {:induction false} FirstFieldStopsAtComma(first: string, later: string)
    requires ',' !in first
    ensures FirstField(first + "," + later) == first
  {
    if first != [] {
      assert (first + "," + later)[1..] == first[1..] + "," + later;
      FirstFieldStopsAtComma(first[1..], later);
    }
  }

  lemma TrimIsSlice(s: string)
    ensures forall c :: c in Trim(s) ==> c in s
  {
    var t := Trim(s);
    var lead := LeadingWhitespace(s);
    forall i | 0 <= i < |t| ensures t[i] in s {
      assert t[i] == s[lead + i];
    }
  }
}
