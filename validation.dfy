/** The request-body validators and sanitisers: the email shape test, the
    password length test, tag stripping, reset-code normalisation and the
    `validate*` / `sanitizeBody` middlewares. */
module Validation {
  import opened Common
  import opened Text

  // ---------------------------------------------------------------- email

  /** A run of characters matched by `[^\s@]`: no whitespace and no '@'. */
  predicate PlainPart(s: string)
  {
    forall i :: 0 <= i < |s| ==> !IsWhitespace(s[i]) && s[i] != '@'
  }

  /** The part after the '@': plain, with a '.' that is neither its first nor its last character. */
  predicate IsDomain(d: string)
  {
    PlainPart(d) && exists k :: 0 < k < |d| - 1 && d[k] == '.'
  }

  /** `isValidEmail`: a non-empty plain local part, one '@', then a domain. */
  predicate IsValidEmail(email: string)
  {
    exists at :: 0 < at < |email| && email[at] == '@' && PlainPart(email[..at]) && IsDomain(email[at + 1..])
  }

  /** `email` is `local@host.tld`, each of the three parts a non-empty plain run. */
  ghost predicate EmailSplit(email: string, local: string, host: string, tld: string)
  {
    email == local + ['@'] + host + ['.'] + tld
    && local != [] && host != [] && tld != []
    && PlainPart(local) && PlainPart(host) && PlainPart(tld)
  }

  /** The language of `/^[^\s@]+@[^\s@]+\.[^\s@]+$/`. */
  ghost predicate MatchesEmailPattern(email: string)
  {
    exists local, host, tld :: EmailSplit(email, local, host, tld)
  }

  /** The index test and the regular expression accept the same strings. */
  lemma IsValidEmailMatchesPattern(email: string)
    ensures IsValidEmail(email) <==> MatchesEmailPattern(email)
  {
    if IsValidEmail(email) {
      ValidEmailSplits(email);
    }
    if MatchesEmailPattern(email) {
      var local, host, tld :| EmailSplit(email, local, host, tld);
      SplitEmailIsValid(email, local, host, tld);
    }
  }

  lemma ValidEmailSplits(email: string)
    requires IsValidEmail(email)
    ensures MatchesEmailPattern(email)
  {
    var at :| 0 < at < |email| && email[at] == '@' && PlainPart(email[..at]) && IsDomain(email[at + 1..]);
    var d := email[at + 1..];
    var k :| 0 < k < |d| - 1 && d[k] == '.';
    DomainSplits(d, k);
    SplitAt(email, at, d[..k], d[k + 1..]);
  }

  lemma SplitAt(email: string, at: nat, host: string, tld: string)
    requires 0 < at < |email| && email[at] == '@' && PlainPart(email[..at])
    requires email[at + 1..] == host + ['.'] + tld
    requires host != [] && tld != [] && PlainPart(host) && PlainPart(tld)
    ensures EmailSplit(email, email[..at], host, tld)
  {
    assert email == email[..at] + ['@'] + email[at + 1..];
  }

  lemma DomainSplits(d: string, k: nat)
    requires PlainPart(d) && 0 < k < |d| - 1 && d[k] == '.'
    ensures d == d[..k] + ['.'] + d[k + 1..]
    ensures PlainPart(d[..k]) && PlainPart(d[k + 1..])
  {
    assert forall i :: 0 <= i < k ==> d[..k][i] == d[i];
    var tail := d[k + 1..];
    assert forall i :: 0 <= i < |tail| ==> tail[i] == d[k + 1 + i];
  }

  lemma SplitEmailIsValid(email: string, local: string, host: string, tld: string)
    requires EmailSplit(email, local, host, tld)
    ensures IsValidEmail(email)
  {
    var at := |local|;
    var d := host + ['.'] + tld;
    assert email == local + ['@'] + d;
    assert email[..at] == local;
    assert email[at + 1..] == d;
    assert d[|host|] == '.';
    assert PlainPart(d) by {
      forall i | 0 <= i < |d|
        ensures !IsWhitespace(d[i]) && d[i] != '@'
      {
        if i < |host| {
          assert d[i] == host[i];
        } else if i > |host| {
          assert d[i] == tld[i - |host| - 1];
        }
      }
    }
    assert IsDomain(d);
  }

  /** A valid address has exactly one '@' and no whitespace. */
  lemma ValidEmailHasOneAt(email: string)
    requires IsValidEmail(email)
    ensures exists at :: 0 <= at < |email| && email[at] == '@' && forall i :: 0 <= i < |email| && email[i] == '@' ==> i == at
    ensures forall i :: 0 <= i < |email| ==> !IsWhitespace(email[i])
  {
    var at :| 0 < at < |email| && email[at] == '@' && PlainPart(email[..at]) && IsDomain(email[at + 1..]);
    forall i | 0 <= i < |email|
      ensures !IsWhitespace(email[i]) && (email[i] == '@' ==> i == at)
    {
      if i < at {
        assert email[i] == email[..at][i];
      } else if i > at {
        assert email[i] == email[at + 1..][i - at - 1];
      }
    }
  }

  // ------------------------------------------------------------- password

  /** `isStrongPassword`: present and at least six characters long. */
  predicate IsStrongPassword(password: Option<string>)
  {
    Truthy(password) && |password.value| >= 6
  }

  // ------------------------------------------------------------ sanitising

  predicate IsWordChar(c: char)
  {
    'a' <= c <= 'z' || 'A' <= c <= 'Z' || '0' <= c <= '9' || c == '_'
  }

  /** `s` holds `pat` at position `i`, ignoring ASCII case (`pat` is lower-case). */
  predicate HasAtIgnoringCase(s: string, i: nat, pat: string)
  {
    i + |pat| <= |s| && ToLower(s[i..i + |pat|]) == pat
  }

  /** `s` starts with `<script` followed by a non-word character (`<script\b`). */
  predicate OpensScript(s: string)
  {
    HasAtIgnoringCase(s, 0, "<script") && |s| > 7 && !IsWordChar(s[7])
  }

  /** The first position at or after `from` where `</script>` begins. */
  function FindScriptClose(s: string, from: nat): (r: Option<nat>)
    ensures r.Some? ==> from <= r.value && r.value + 9 <= |s| && HasAtIgnoringCase(s, r.value, "</script>")
    ensures r.Some? ==> forall i :: from <= i < r.value ==> !HasAtIgnoringCase(s, i, "</script>")
    ensures r.None? ==> forall i :: from <= i ==> !HasAtIgnoringCase(s, i, "</script>")
    decreases |s| - from
  {
    if from + 9 > |s| then None
    else if HasAtIgnoringCase(s, from, "</script>") then Some(from)
    else FindScriptClose(s, from + 1)
  }

  /** `s.replace(/<script\b[^<]*(?:(?!<\/script>)<[^<]*)*<\/script>/gi, '')`:
      every `<script…>…</script>` block, up to its first closing tag, is removed. */
  function StripScripts(s: string): (r: string)
    ensures |r| <= |s|
    ensures forall c :: c in r ==> c in s
    ensures '<' !in s ==> r == s
    decreases |s|
  {
    if s == [] then []
    else if OpensScript(s) && FindScriptClose(s, 7).Some? then
      var rest := s[FindScriptClose(s, 7).value + 9..];
      assert forall c :: c in rest ==> c in s;
      assert s[0] == '<' by {
        assert ToLower(s[0..7])[0] == LowerChar(s[0]);
      }
      StripScripts(rest)
    else
      [s[0]] + StripScripts(s[1..])
  }

  /** No '<' is followed, anywhere later, by a '>': no tag is left. */
  predicate NoTag(s: string)
  {
    forall i, j :: 0 <= i < j < |s| && s[i] == '<' ==> s[j] != '>'
  }

  /** The position of the first '>' in `s`. */
  function FirstClose(s: string): (k: nat)
    requires '>' in s
    ensures k < |s| && s[k] == '>' && '>' !in s[..k]
  {
    if s[0] == '>' then 0 else FirstClose(s[1..]) + 1
  }

  /** `s.replace(/<[^>]*>/g, '')`: every '<' up to the next '>' is removed; a
      '<' with no '>' after it stays. */
  function StripTags(s: string): (r: string)
    ensures |r| <= |s|
    ensures NoTag(r)
    ensures forall c :: c in r ==> c in s
    ensures '<' !in s ==> r == s
    decreases |s|
  {
    if s == [] then []
    else if s[0] == '<' && '>' in s[1..] then
      var rest := s[FirstClose(s[1..]) + 2..];
      assert forall c :: c in rest ==> c in s;
      StripTags(rest)
    else
      var rest := StripTags(s[1..]);
      assert s[0] == '<' ==> '>' !in rest;
      [s[0]] + rest
  }

  /** `sanitizeString` on a string: trim, drop script blocks, drop tags. */
  function SanitizeString(s: string): string
  {
    StripTags(StripScripts(Trim(s)))
  }

  /** A sanitised string holds no tag and only characters of its input, and a
      string without '<' is only trimmed. */
  lemma SanitizeStringMeaning(s: string)
    ensures |SanitizeString(s)| <= |s|
    ensures NoTag(SanitizeString(s))
    ensures forall c :: c in SanitizeString(s) ==> c in s
    ensures '<' !in s ==> SanitizeString(s) == Trim(s)
  {
    var t := Trim(s);
    var u := TrimStart(s);
    assert t == u[..|t|] && u == s[|s| - |u|..];
    assert forall c :: c in t ==> c in u;
    assert forall c :: c in u ==> c in s;
  }

  /** A request-body field: a string, or some other JSON value. */
  datatype FieldValue = Text(text: string) | NonText

  /** `sanitizeString` on any value: anything but a string is returned unchanged. */
  function SanitizeValue(v: FieldValue): (r: FieldValue)
    ensures v.NonText? ==> r == v
    ensures v.Text? ==> r.Text? && NoTag(r.text)
  {
    match v
    case Text(s) => SanitizeStringMeaning(s); Text(SanitizeString(s))
    case NonText => NonText
  }

  /** The body `sanitizeBody(fields)` leaves: each listed field holding a
      non-empty string is sanitised, in the order of the list. */
  function SanitizedBody(body: map<string, FieldValue>, fields: seq<string>): map<string, FieldValue>
  {
    if fields == [] then body
    else
      var f := fields[0];
      var next := if f in body && body[f].Text? && body[f].text != "" then body[f := SanitizeValue(body[f])] else body;
      SanitizedBody(next, fields[1..])
  }

  /** Sanitising keeps the body's keys and touches no field outside the list. */
  lemma {:induction false} SanitizedBodyFrame(body: map<string, FieldValue>, fields: seq<string>)
    ensures SanitizedBody(body, fields).Keys == body.Keys
    ensures forall k :: k in body && k !in fields ==> SanitizedBody(body, fields)[k] == body[k]
    ensures forall k :: k in body && body[k].NonText? ==> SanitizedBody(body, fields)[k] == body[k]
  {
    if fields != [] {
      var f := fields[0];
      var next := if f in body && body[f].Text? && body[f].text != "" then body[f := SanitizeValue(body[f])] else body;
      SanitizedBodyFrame(next, fields[1..]);
    }
  }

  /** A string field that is already free of tags stays a tag-free string. */
  lemma {:induction false} SanitizedBodyKeepsClean(body: map<string, FieldValue>, fields: seq<string>, f: string)
    requires f in body && body[f].Text? && NoTag(body[f].text)
    ensures f in SanitizedBody(body, fields)
    ensures SanitizedBody(body, fields)[f].Text? && NoTag(SanitizedBody(body, fields)[f].text)
  {
    if fields != [] {
      var g := fields[0];
      var next := if g in body && body[g].Text? && body[g].text != "" then body[g := SanitizeValue(body[g])] else body;
      SanitizedBodyKeepsClean(next, fields[1..], f);
    }
  }

  /** Every listed field holding a non-empty string comes back as a string
      free of tags. */
  lemma {:induction false} SanitizedBodyCleans(body: map<string, FieldValue>, fields: seq<string>, f: string)
    requires f in fields && f in body && body[f].Text? && body[f].text != ""
    ensures f in SanitizedBody(body, fields)
    ensures SanitizedBody(body, fields)[f].Text? && NoTag(SanitizedBody(body, fields)[f].text)
  {
    var g := fields[0];
    var next := if g in body && body[g].Text? && body[g].text != "" then body[g := SanitizeValue(body[g])] else body;
    if g == f {
      SanitizedBodyKeepsClean(next, fields[1..], f);
    } else {
      assert f in fields[1..];
      SanitizedBodyCleans(next, fields[1..], f);
    }
  }

  /** The `sanitizeBody(fields)` middleware, rewriting the body field by field. */
  method SanitizeBody(body: map<string, FieldValue>, fields: seq<string>) returns (out: map<string, FieldValue>)
    ensures out == SanitizedBody(body, fields)
  {
    out := body;
    var n := 0;
    while n < |fields|
      invariant 0 <= n <= |fields|
      invariant SanitizedBody(out, fields[n..]) == SanitizedBody(body, fields)
    {
      var f := fields[n];
      assert fields[n..][1..] == fields[n + 1..];
      if f in out && out[f].Text? && out[f].text != "" {
        out := out[f := SanitizeValue(out[f])];
      }
      n := n + 1;
    }
  }

  // ----------------------------------------------------------- reset codes

  predicate IsAsciiAlnum(c: char)
  {
    'a' <= c <= 'z' || 'A' <= c <= 'Z' || '0' <= c <= '9'
  }

  /** `code.replace(/[^a-zA-Z0-9]/g, '')`. */
  function KeepAlnum(s: string): (r: string)
    ensures forall i :: 0 <= i < |r| ==> IsAsciiAlnum(r[i])
    ensures (forall i :: 0 <= i < |s| ==> IsAsciiAlnum(s[i])) ==> r == s
  {
    if s == [] then []
    else if IsAsciiAlnum(s[0]) then [s[0]] + KeepAlnum(s[1..])
    else KeepAlnum(s[1..])
  }

  /** The reset code as `validatePasswordReset` passes it on: letters and digits only, upper-cased. */
  function NormalizeResetCode(code: string): string
  {
    ToUpper(KeepAlnum(code))
  }

  /** A normalised code holds only A-Z and 0-9, and normalising it again changes nothing. */
  lemma NormalizeResetCodeMeaning(code: string)
    ensures forall i :: 0 <= i < |NormalizeResetCode(code)| ==>
      'A' <= NormalizeResetCode(code)[i] <= 'Z' || '0' <= NormalizeResetCode(code)[i] <= '9'
    ensures NormalizeResetCode(NormalizeResetCode(code)) == NormalizeResetCode(code)
  {
    var k := KeepAlnum(code);
    var r := ToUpper(k);
    ToUpperMeaning(k);
    assert forall i :: 0 <= i < |r| ==> r[i] == UpperChar(k[i]);
    assert KeepAlnum(r) == r;
  }

  // ------------------------------------------------------------ middlewares

  const MsgInvalidEmail := "Please provide a valid email address"

  /** `validateLogin`: both fields present, a valid email; the email passes on
      lower-cased and sanitised, the password untouched. */
  function ValidateLogin(email: Option<string>, password: Option<string>): (r: Result<(string, string)>)
    ensures r.Ok? <==> Truthy(email) && Truthy(password) && IsValidEmail(email.value)
    ensures r.Ok? ==> r.value.0 == SanitizeString(ToLower(email.value)) && r.value.1 == password.value
    ensures r.Ok? ==> NoTag(r.value.0)
    ensures r.Ok? ==> forall c :: c in r.value.0 ==> !('A' <= c <= 'Z')
    ensures r.Err? ==> r.failure.status == 400
  {
    if !Truthy(email) || !Truthy(password) then Err(Failure(400, "Email and password are required"))
    else if !IsValidEmail(email.value) then Err(Failure(400, MsgInvalidEmail))
    else
      LowerSanitized(email.value);
      Ok((SanitizeString(ToLower(email.value)), password.value))
  }

  /** Sanitising a lower-cased string leaves it free of upper-case letters and tags. */
  lemma LowerSanitized(s: string)
    ensures NoTag(SanitizeString(ToLower(s)))
    ensures forall c :: c in SanitizeString(ToLower(s)) ==> !('A' <= c <= 'Z')
  {
    SanitizeStringMeaning(ToLower(s));
    ToLowerMeaning(s);
  }

  /** `validateResetRequest`: the email present and valid; it passes on lower-cased and sanitised. */
  function ValidateResetRequest(email: Option<string>): (r: Result<string>)
    ensures r.Ok? <==> Truthy(email) && IsValidEmail(email.value)
    ensures r.Ok? ==> r.value == SanitizeString(ToLower(email.value))
    ensures r.Ok? ==> NoTag(r.value) && forall c :: c in r.value ==> !('A' <= c <= 'Z')
    ensures r.Err? ==> r.failure.status == 400
  {
    if !Truthy(email) then Err(Failure(400, "Email is required"))
    else if !IsValidEmail(email.value) then Err(Failure(400, MsgInvalidEmail))
    else
      LowerSanitized(email.value);
      Ok(SanitizeString(ToLower(email.value)))
  }

  /** `validatePasswordReset`: code and password present, the password at least
      six characters; the code passes on normalised, the password untouched. */
  function ValidatePasswordReset(code: Option<string>, newPassword: Option<string>): (r: Result<(string, string)>)
    ensures r.Ok? <==> Truthy(code) && IsStrongPassword(newPassword)
    ensures r.Ok? ==> r.value.0 == NormalizeResetCode(code.value) && r.value.1 == newPassword.value
    ensures r.Ok? ==> |r.value.1| >= 6
    ensures r.Err? ==> r.failure.status == 400
  {
    if !Truthy(code) || !Truthy(newPassword) then Err(Failure(400, "Reset code and new password are required"))
    else if !IsStrongPassword(newPassword) then Err(Failure(400, "Password must be at least 6 characters long"))
    else Ok((NormalizeResetCode(code.value), newPassword.value))
  }

  const MaxActivityLength := 5000

  /** `validateActivity`: content present, not blank, at most 5000 characters
      before sanitising; it passes on sanitised. */
  function ValidateActivity(content: Option<string>): (r: Result<string>)
    ensures r.Ok? <==> Truthy(content) && !IsBlank(content.value) && |content.value| <= MaxActivityLength
    ensures r.Ok? ==> r.value == SanitizeString(content.value)
    ensures r.Ok? ==> NoTag(r.value) && |r.value| <= MaxActivityLength
    ensures r.Err? ==> r.failure.status == 400
  {
    if !Truthy(content) || IsBlank(content.value) then Err(Failure(400, "Activity content is required"))
    else if |content.value| > MaxActivityLength then Err(Failure(400, "Activity content is too long (max 5000 characters)"))
    else
      SanitizeStringMeaning(content.value);
      Ok(SanitizeString(content.value))
  }

  /** `validateCredentials`: name and email present, a valid email, a name of 2
      to 100 characters; both pass on sanitised, the email lower-cased. */
  function ValidateCredentials(name: Option<string>, email: Option<string>): (r: Result<(string, string)>)
    ensures r.Ok? <==> Truthy(name) && Truthy(email) && IsValidEmail(email.value) && 2 <= |name.value| <= 100
    ensures r.Ok? ==> r.value == (SanitizeString(name.value), SanitizeString(ToLower(email.value)))
    ensures r.Ok? ==> NoTag(r.value.0) && NoTag(r.value.1)
    ensures r.Ok? ==> forall c :: c in r.value.1 ==> !('A' <= c <= 'Z')
    ensures r.Err? ==> r.failure.status == 400
  {
    if !Truthy(name) || !Truthy(email) then Err(Failure(400, "Name and email are required"))
    else if !IsValidEmail(email.value) then Err(Failure(400, MsgInvalidEmail))
    else if |name.value| < 2 || |name.value| > 100 then Err(Failure(400, "Name must be between 2 and 100 characters"))
    else
      SanitizeStringMeaning(name.value);
      LowerSanitized(email.value);
      Ok((SanitizeString(name.value), SanitizeString(ToLower(email.value))))
  }
}
