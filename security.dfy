/**
 * Access control around the API: the CORS origin list of the two Spring versions, the paths
 * they serve without a token, the Express bearer-token middleware and its role guard. Token
 * verification itself is a parameter.
 */
module Security {
  import opened Common

  // -----------------------------------------------------------------------
  // Splitting on a separator
  // -----------------------------------------------------------------------

  /** `split(",")` keeping every piece, empty ones included. */
  function Split(s: string, sep: char): (r: seq<string>)
    ensures |r| >= 1
    ensures forall i :: 0 <= i < |r| ==> sep !in r[i]
  {
    if s == [] then [""]
    else if s[0] == sep then [""] + Split(s[1..], sep)
    else
      var rest := Split(s[1..], sep);
      [[s[0]] + rest[0]] + rest[1..]
  }

  /** Pieces glued back with the separator between them. */
  function Join(parts: seq<string>, sep: char): string
    requires |parts| >= 1
  {
    if |parts| == 1 then parts[0] else parts[0] + [sep] + Join(parts[1..], sep)
  }

  /** Joining the pieces gives back the string. */
  lemma {:induction false} JoinSplit(s: string, sep: char)
    ensures Join(Split(s, sep), sep) == s
  {
    if s != [] {
      JoinSplit(s[1..], sep);
      if s[0] != sep {
        var rest := Split(s[1..], sep);
        if |rest| == 1 {
          assert Split(s, sep) == [[s[0]] + rest[0]];
        } else {
          assert Split(s, sep)[1..] == rest[1..];
        }
      }
    }
  }

  /** Splitting a join of separator-free pieces gives back the pieces. */
  lemma {:induction false} SplitJoin(parts: seq<string>, sep: char)
    requires |parts| >= 1 && forall i :: 0 <= i < |parts| ==> sep !in parts[i]
    ensures Split(Join(parts, sep), sep) == parts
  {
    if |parts| == 1 {
      SplitOfSingle(parts[0], sep);
    } else {
      SplitJoin(parts[1..], sep);
      SplitOfPiece(parts[0], sep, Join(parts[1..], sep));
      assert [parts[0]] + parts[1..] == parts;
    }
  }

  /** A separator-free piece in front: the split is that piece, then the split of the rest. */
  lemma {:induction false} SplitOfPiece(p: string, sep: char, tail: string)
    requires sep !in p
    ensures Split(p + [sep] + tail, sep) == [p] + Split(tail, sep)
  {
    var s := p + [sep] + tail;
    if p != [] {
      SplitOfPiece(p[1..], sep, tail);
      assert s[0] == p[0] && s[1..] == p[1..] + [sep] + tail;
      assert [p[0]] + p[1..] == p;
    } else {
      assert s[1..] == tail;
    }
  }

  /** A separator-free string is a single piece. */
  lemma {:induction false} SplitOfSingle(p: string, sep: char)
    requires sep !in p
    ensures Split(p, sep) == [p]
  {
    if p != [] {
      SplitOfSingle(p[1..], sep);
      assert [p[0]] + p[1..] == p;
    }
  }

  // -----------------------------------------------------------------------
  // CORS origins
  // -----------------------------------------------------------------------

  /** A string whose first and last characters survive `trim`. */
  predicate Trimmed(s: string)
  {
    s != [] && !JavaTrimmed(s[0]) && !JavaTrimmed(s[|s| - 1])
  }

  /** Every piece trimmed. */
  function TrimAll(pieces: seq<string>): (r: seq<string>)
    ensures |r| == |pieces|
    ensures forall i :: 0 <= i < |pieces| ==> r[i] == JavaTrim(pieces[i])
  {
    if pieces == [] then [] else [JavaTrim(pieces[0])] + TrimAll(pieces[1..])
  }

  /** The non-empty entries, order kept. */
  function DropEmpty(xs: seq<string>): (r: seq<string>)
    ensures forall o :: o in r <==> o in xs && o != []
  {
    if xs == [] then []
    else if xs[0] == [] then DropEmpty(xs[1..])
    else [xs[0]] + DropEmpty(xs[1..])
  }

  /**
   * The configured origin list: nothing when the property is missing, otherwise the
   * comma-separated entries, trimmed, blank ones dropped. An entry is there exactly when it is
   * the trimmed form of a non-blank piece; none holds a comma or surrounding whitespace.
   */
  function ParseOrigins(raw: Option<string>): (r: seq<string>)
    ensures raw.None? ==> r == []
    ensures raw.Some? ==> forall o :: o in r <==> o in TrimAll(Split(raw.value, ',')) && o != []
    ensures forall o :: o in r ==> Trimmed(o) && ',' !in o
  {
    if raw.None? then []
    else
      var pieces := Split(raw.value, ',');
      TrimAllShape(pieces, ',');
      DropEmpty(TrimAll(pieces))
  }

  /** A non-empty trimmed piece is trimmed at both ends and lacks what its piece lacks. */
  lemma TrimAllShape(pieces: seq<string>, c: char)
    requires forall i :: 0 <= i < |pieces| ==> c !in pieces[i]
    ensures forall o :: o in TrimAll(pieces) && o != [] ==> Trimmed(o) && c !in o
  {
    var t := TrimAll(pieces);
    forall o | o in t && o != [] ensures Trimmed(o) && c !in o {
      var i :| 0 <= i < |t| && t[i] == o;
      TrimKeepsOut(pieces[i], c);
    }
  }

  /** Trimming adds no character: one absent from a piece is absent from its trimmed form. */
  lemma TrimKeepsOut(piece: string, c: char)
    requires c !in piece
    ensures c !in JavaTrim(piece)
  {
    var o := JavaTrim(piece);
    TrimIsInfix(piece, JavaTrimmed);
    var k :| 0 <= k <= |piece| - |o| && InfixAt(piece, o, k);
    assert forall j :: 0 <= j < |o| ==> o[j] == piece[k + j];
  }

  /**
   * Configuring a list of origins as a comma-separated property gives back exactly that list:
   * parsing inverts writing the entries with commas between them.
   */
  lemma OriginsRoundTrip(origins: seq<string>)
    requires |origins| >= 1
    requires forall i :: 0 <= i < |origins| ==> Trimmed(origins[i]) && ',' !in origins[i]
    ensures ParseOrigins(Some(Join(origins, ','))) == origins
  {
    SplitJoin(origins, ',');
    TrimAllOfTrimmed(origins);
    DropEmptyOfNonEmpty(origins);
  }

  /** Trimming entries that are already trimmed changes none of them. */
  lemma {:induction false} TrimAllOfTrimmed(xs: seq<string>)
    requires forall i :: 0 <= i < |xs| ==> Trimmed(xs[i])
    ensures TrimAll(xs) == xs
  {
    if xs != [] {
      TrimOfUntrimmed(xs[0], JavaTrimmed);
      TrimAllOfTrimmed(xs[1..]);
      assert [xs[0]] + xs[1..] == xs;
    }
  }

  lemma {:induction false} DropEmptyOfNonEmpty(xs: seq<string>)
    requires forall i :: 0 <= i < |xs| ==> xs[i] != []
    ensures DropEmpty(xs) == xs
  {
    if xs != [] {
      DropEmptyOfNonEmpty(xs[1..]);
    }
  }

  /** Allowed origins: either patterns (wildcards allowed) or exact origins. */
  datatype AllowedOrigins = OriginPatterns(patterns: seq<string>) | ExactOrigins(origins: seq<string>)

  /** The parts of `CorsConfiguration` the services set. */
  datatype CorsConfig = CorsConfig(
    allowed: AllowedOrigins,
    methods: seq<string>,
    headers: seq<string>,
    allowCredentials: bool)

  const SpringFallback: seq<string> :=
    ["https://*.onrender.com", "https://paus.io.vn", "https://www.paus.io.vn", "http://localhost:*"]

  const LegacyFallback: seq<string> := ["https://*.onrender.com", "http://localhost:*"]

  const CorsMethods: seq<string> := ["GET", "POST", "PUT", "PATCH", "DELETE", "OPTIONS"]

  predicate HasWildcard(origins: seq<string>)
  {
    exists o :: o in origins && '*' in o
  }

  /**
   * `corsConfigurationSource`, with the fallback of the version: no configured origin selects the
   * fallback patterns; a list with a wildcard entry is used as patterns; any other list as exact
   * origins. Six methods, every header, no credentials.
   */
  function CorsFor(raw: Option<string>, fallback: seq<string>): (r: CorsConfig)
    ensures ParseOrigins(raw) == [] ==> r.allowed == OriginPatterns(fallback)
    ensures ParseOrigins(raw) != [] && HasWildcard(ParseOrigins(raw)) ==>
      r.allowed == OriginPatterns(ParseOrigins(raw))
    ensures r.allowed.ExactOrigins? ==>
      r.allowed.origins == ParseOrigins(raw) && r.allowed.origins != [] &&
      forall o :: o in r.allowed.origins ==> '*' !in o
    ensures r.methods == CorsMethods && r.headers == ["*"] && !r.allowCredentials
  {
    var origins := ParseOrigins(raw);
    var allowed :=
      if |origins| == 0 then OriginPatterns(fallback)
      else if HasWildcard(origins) then OriginPatterns(origins)
      else ExactOrigins(origins);
    CorsConfig(allowed, CorsMethods, ["*"], false)
  }

  /** The newer Spring configuration: four fallback patterns. */
  function SpringCors(raw: Option<string>): (r: CorsConfig)
    ensures ParseOrigins(raw) == [] ==> r.allowed == OriginPatterns(SpringFallback)
    ensures ParseOrigins(raw) != [] ==> r == LegacyCors(raw)
  {
    CorsFor(raw, SpringFallback)
  }

  /** The older Spring configuration: two fallback patterns. */
  function LegacyCors(raw: Option<string>): (r: CorsConfig)
    ensures ParseOrigins(raw) == [] ==> r.allowed == OriginPatterns(LegacyFallback)
  {
    CorsFor(raw, LegacyFallback)
  }

  // -----------------------------------------------------------------------
  // Public paths
  // -----------------------------------------------------------------------

  datatype HttpMethod = Get | Post | Put | Patch | Delete | Options | Head

  /** The Ant pattern that ends in a double star: the base itself or anything below it. */
  predicate Below(path: string, base: string)
  {
    path == base || StartsWith(path, base + "/")
  }

  /** Requests the newer Spring chain lets through without authentication. */
  predicate SpringPublic(m: HttpMethod, path: string)
  {
    m == Options || path == "/" || Below(path, "/api/auth") || Below(path, "/login/oauth2") || Below(path, "/uploads")
  }

  /** Requests the older Spring chain lets through without authentication (no OAuth2 callback). */
  predicate LegacyPublic(m: HttpMethod, path: string)
  {
    m == Options || path == "/" || Below(path, "/api/auth") || Below(path, "/uploads")
  }

  /** `anyRequest().authenticated()`: a request passes when it is public or carries a valid token. */
  function SpringAdmits(m: HttpMethod, path: string, authenticated: bool): (r: bool)
    ensures !authenticated ==> (r <==> SpringPublic(m, path))
    ensures authenticated ==> r
  {
    SpringPublic(m, path) || authenticated
  }

  /** The older chain: same rule with its own public list. */
  function LegacyAdmits(m: HttpMethod, path: string, authenticated: bool): (r: bool)
    ensures !authenticated ==> (r <==> LegacyPublic(m, path))
    ensures authenticated ==> r
  {
    LegacyPublic(m, path) || authenticated
  }

  lemma NotBelowOtherPrefix(path: string, a: string, b: string, k: nat)
    requires k < |a| && k < |b| && a[k] != b[k]
    requires StartsWith(path, a)
    ensures !Below(path, b)
  {
    assert path[k] == a[k];
  }

  /**
   * Every API call outside `/api/auth` needs a token in both versions unless it is a preflight;
   * the two versions differ exactly on the OAuth2 login callback.
   */
  lemma ApiNeedsToken(m: HttpMethod, path: string)
    requires m != Options && StartsWith(path, "/api/") && !Below(path, "/api/auth")
    ensures !SpringAdmits(m, path, false) && !LegacyAdmits(m, path, false)
  {
    assert path != "/";
    NotBelowOtherPrefix(path, "/api/", "/login/oauth2", 1);
    NotBelowOtherPrefix(path, "/api/", "/uploads", 1);
  }

  lemma PublicListsDiffer(m: HttpMethod, path: string)
    ensures LegacyPublic(m, path) ==> SpringPublic(m, path)
    ensures SpringPublic(m, path) && !LegacyPublic(m, path) <==>
      m != Options && Below(path, "/login/oauth2") && path != "/" &&
      !Below(path, "/api/auth") && !Below(path, "/uploads")
  {
  }

  // -----------------------------------------------------------------------
  // Express bearer-token middleware and role guard
  // -----------------------------------------------------------------------

  /** The claims a verified Express token carries; `iat`/`exp` are dropped from `req.user`. */
  datatype Claims = Claims(id: int, role: string, fullName: string, email: string, iat: int, exp: int)

  /** `req.user`. */
  datatype AuthUser = AuthUser(id: int, role: string, fullName: string, email: string)

  /** `jwt.verify`: the claims of a token that is genuine and not expired, otherwise nothing. */
  type Verifier = string -> Option<Claims>

  /** The token after the 7-character `Bearer ` prefix; nothing when the prefix is absent. */
  function BearerToken(header: Option<string>): (r: Option<string>)
    ensures r.Some? <==> header.Some? && StartsWith(header.value, "Bearer ")
    ensures r.Some? ==> header.value == "Bearer " + r.value
  {
    var h := if header.None? then "" else header.value;
    if StartsWith(h, "Bearer ") then
      assert h == h[..7] + h[7..];
      Some(h[7..])
    else None
  }

  /**
   * `auth`: 401 "Missing token" when there is no non-empty bearer token, 401 "Invalid or expired
   * token" when verification fails, otherwise the user made of the four claims.
   */
  function Authenticate(header: Option<string>, verify: Verifier): (r: Result<AuthUser>)
    ensures (BearerToken(header).None? || BearerToken(header) == Some("")) ==>
      r == Err(ApiError(401, "Missing token"))
    ensures BearerToken(header).Some? && BearerToken(header).value != "" ==>
      (verify(BearerToken(header).value).None? ==> r == Err(ApiError(401, "Invalid or expired token"))) &&
      (verify(BearerToken(header).value).Some? ==>
        var c := verify(BearerToken(header).value).value;
        r == Ok(AuthUser(c.id, c.role, c.fullName, c.email)))
  {
    var token := BearerToken(header);
    if token.None? || token.value == "" then Err(ApiError(401, "Missing token"))
    else match verify(token.value)
      case None => Err(ApiError(401, "Invalid or expired token"))
      case Some(c) => Ok(AuthUser(c.id, c.role, c.fullName, c.email))
  }

  /** A header built from a genuine token authenticates its holder. */
  lemma BearerRoundTrip(token: string, verify: Verifier, c: Claims)
    requires token != "" && verify(token) == Some(c)
    ensures Authenticate(Some("Bearer " + token), verify) == Ok(AuthUser(c.id, c.role, c.fullName, c.email))
  {
    var h := "Bearer " + token;
    assert h[..7] == "Bearer ";
    assert h[7..] == token;
  }

  /** The outcome of a middleware: pass on to the handler, or answer an error. */
  datatype Gate = Next | Deny(error: ApiError)

  /**
   * `requireRole(...roles)`: 401 without a user, 403 when roles are listed and the user's is not
   * among them; any authenticated user passes an empty list.
   */
  function RequireRole(user: Option<AuthUser>, roles: seq<string>): (r: Gate)
    ensures user.None? ==> r == Deny(ApiError(401, "Unauthenticated"))
    ensures user.Some? ==> (r == Next <==> |roles| == 0 || user.value.role in roles)
    ensures user.Some? && r != Next ==> r == Deny(ApiError(403, "Forbidden: insufficient role"))
  {
    if user.None? then Deny(ApiError(401, "Unauthenticated"))
    else if |roles| > 0 && user.value.role !in roles then Deny(ApiError(403, "Forbidden: insufficient role"))
    else Next
  }
}
