/**
 * The .env rewriting shared by the two Mailgun setup scripts: a file is the
 * list of its lines as readlines gives them (each keeps its '\n'), and the
 * two keys the scripts care about are rewritten line by line.
 */
module EnvLines {
  import opened Text

  const DomainKey := "MAILGUN_DOMAIN="
  const FromKey := "MAIL_FROM_ADDRESS="

  function DomainLine(domain: string): (line: string)
    ensures StartsWith(line, DomainKey)
  {
    var line := DomainKey + domain + "\n";
    assert line[..|DomainKey|] == DomainKey;
    line
  }

  function FromLine(domain: string): (line: string)
    ensures StartsWith(line, FromKey) && !StartsWith(line, DomainKey)
  {
    var line := FromKey + "noreply@" + domain + "\n";
    assert line[..|FromKey|] == FromKey;
    assert line[4] != DomainKey[4];
    line
  }

  /** The two keys can never start the same line. */
  lemma KeysExclusive(line: string)
    ensures !(StartsWith(line, DomainKey) && StartsWith(line, FromKey))
  {
    assert StartsWith(line, DomainKey) ==> line[4] == DomainKey[..|DomainKey|][4] == 'G';
    assert StartsWith(line, FromKey) ==> line[4] == FromKey[..|FromKey|][4] == '_';
  }

  /** One line of the loop: a key line is replaced by the key with the new value, any other line is kept. */
  function RewriteLine(line: string, domain: string): (r: string)
    ensures StartsWith(line, DomainKey) ==> r == DomainLine(domain)
    ensures !StartsWith(line, DomainKey) && StartsWith(line, FromKey) ==> r == FromLine(domain)
    ensures !StartsWith(line, DomainKey) && !StartsWith(line, FromKey) ==> r == line
  {
    if StartsWith(line, DomainKey) then DomainLine(domain)
    else if StartsWith(line, FromKey) then FromLine(domain)
    else line
  }

  /** A rewritten line starts with a key exactly when the original did. */
  lemma RewriteLineKeepsKeys(line: string, domain: string)
    ensures StartsWith(RewriteLine(line, domain), DomainKey) <==> StartsWith(line, DomainKey)
    ensures StartsWith(RewriteLine(line, domain), FromKey) <==> StartsWith(line, FromKey)
  {
    KeysExclusive(line);
    KeysExclusive(DomainLine(domain));
  }

  /** Rewriting a line a second time with the same domain changes nothing. */
  lemma RewriteLineIdempotent(line: string, domain: string)
    ensures RewriteLine(RewriteLine(line, domain), domain) == RewriteLine(line, domain)
  {
    RewriteLineKeepsKeys(line, domain);
  }

  /** Every line rewritten in place. */
  function Replaced(lines: seq<string>, domain: string): (r: seq<string>)
    ensures |r| == |lines|
    ensures forall i :: 0 <= i < |lines| ==> r[i] == RewriteLine(lines[i], domain)
  {
    seq(|lines|, i requires 0 <= i < |lines| => RewriteLine(lines[i], domain))
  }

  predicate HasKey(lines: seq<string>, key: string) {
    exists i :: 0 <= i < |lines| && StartsWith(lines[i], key)
  }

  lemma HasKeySnoc(lines: seq<string>, line: string, key: string)
    ensures HasKey(lines + [line], key) <==> HasKey(lines, key) || StartsWith(line, key)
  {
    var s := lines + [line];
    if HasKey(lines, key) {
      var j :| 0 <= j < |lines| && StartsWith(lines[j], key);
      assert s[j] == lines[j];
      assert HasKey(s, key);
    } else if StartsWith(line, key) {
      assert s[|lines|] == line;
      assert HasKey(s, key);
    } else {
      forall j | 0 <= j < |s| ensures !StartsWith(s[j], key) {
        if j < |lines| {
          assert s[j] == lines[j];
        }
      }
    }
  }

  /** The in-place rewrite keeps which keys a file has, and a second pass changes nothing. */
  lemma ReplacedIdempotent(lines: seq<string>, domain: string)
    ensures Replaced(Replaced(lines, domain), domain) == Replaced(lines, domain)
    ensures HasKey(Replaced(lines, domain), DomainKey) <==> HasKey(lines, DomainKey)
    ensures HasKey(Replaced(lines, domain), FromKey) <==> HasKey(lines, FromKey)
  {
    var once := Replaced(lines, domain);
    forall i | 0 <= i < |lines|
      ensures RewriteLine(once[i], domain) == once[i]
      ensures StartsWith(once[i], DomainKey) <==> StartsWith(lines[i], DomainKey)
      ensures StartsWith(once[i], FromKey) <==> StartsWith(lines[i], FromKey)
    {
      RewriteLineIdempotent(lines[i], domain);
      RewriteLineKeepsKeys(lines[i], domain);
    }
  }
}

/**
 * setup_productcompass_domain.py: update_env_file points the .env file at
 * productcompass.com, appending either key when the file lacks it.
 */
module ProductCompassSetup {
  import opened Text
  import opened EnvLines

  const DomainName := "productcompass.com"

  /** The lines update_env_file writes: every line rewritten, then each missing key appended. */
  function Updated(lines: seq<string>, domain: string): (r: seq<string>)
    ensures |lines| <= |r| <= |lines| + 2
    ensures r[..|lines|] == Replaced(lines, domain)
    ensures HasKey(r, DomainKey) && HasKey(r, FromKey)
    ensures HasKey(lines, DomainKey) && HasKey(lines, FromKey) <==> |r| == |lines|
    ensures |r| == |lines| + (if HasKey(lines, DomainKey) then 0 else 1) + (if HasKey(lines, FromKey) then 0 else 1)
    ensures !HasKey(lines, DomainKey) ==> r[|lines|] == DomainLine(domain)
    ensures !HasKey(lines, FromKey) ==> r[|r| - 1] == FromLine(domain)
  {
    var domainTail := if HasKey(lines, DomainKey) then [] else [DomainLine(domain)];
    var fromTail := if HasKey(lines, FromKey) then [] else [FromLine(domain)];
    var r := Replaced(lines, domain) + domainTail + fromTail;
    ReplacedIdempotent(lines, domain);
    assert r[..|lines|] == Replaced(lines, domain);
    assert HasKey(r, DomainKey) by {
      if HasKey(lines, DomainKey) {
        KeyKeptByRewrite(lines, domain, DomainKey, r);
      } else {
        assert StartsWith(r[|lines|], DomainKey);
      }
    }
    assert HasKey(r, FromKey) by {
      if HasKey(lines, FromKey) {
        KeyKeptByRewrite(lines, domain, FromKey, r);
      } else {
        assert StartsWith(r[|r| - 1], FromKey);
      }
    }
    r
  }

  /** A key a line starts with is still there once the lines are rewritten in place, whatever follows them. */
  lemma KeyKeptByRewrite(lines: seq<string>, domain: string, key: string, r: seq<string>)
    requires key == DomainKey || key == FromKey
    requires HasKey(lines, key)
    requires |lines| <= |r| && r[..|lines|] == Replaced(lines, domain)
    ensures HasKey(r, key)
  {
    var i :| 0 <= i < |lines| && StartsWith(lines[i], key);
    RewriteLineKeepsKeys(lines[i], domain);
    assert r[i] == r[..|lines|][i] == RewriteLine(lines[i], domain);
  }

  /** Running the script again on the lines it wrote writes the same lines. */
  lemma UpdatedIdempotent(lines: seq<string>, domain: string)
    ensures Updated(Updated(lines, domain), domain) == Updated(lines, domain)
  {
    var once := Updated(lines, domain);
    var n := |lines|;
    var head := Replaced(lines, domain);
    assert once == head + once[n..];
    ReplacedIdempotent(lines, domain);
    forall i | n <= i < |once| ensures RewriteLine(once[i], domain) == once[i] {
      if !HasKey(lines, DomainKey) && i == n {
        assert once[i] == DomainLine(domain);
      } else {
        assert once[i] == FromLine(domain);
        KeysExclusive(once[i]);
      }
    }
    assert Replaced(once, domain) == once;
  }

  /**
   * update_env_file's loop: each line is rewritten in turn while two flags
   * record whether the keys were seen; the missing keys are then appended.
   */
  method UpdateEnvFile(lines: seq<string>) returns (updatedLines: seq<string>)
    ensures updatedLines == Updated(lines, DomainName)
  {
    updatedLines := [];
    var domainUpdated := false;
    var mailUpdated := false;
    for i := 0 to |lines|
      invariant updatedLines == Replaced(lines[..i], DomainName)
      invariant domainUpdated <==> HasKey(lines[..i], DomainKey)
      invariant mailUpdated <==> HasKey(lines[..i], FromKey)
    {
      var line := lines[i];
      assert lines[..i + 1] == lines[..i] + [line];
      HasKeySnoc(lines[..i], line, DomainKey);
      HasKeySnoc(lines[..i], line, FromKey);
      KeysExclusive(line);
      if StartsWith(line, DomainKey) {
        updatedLines := updatedLines + [DomainLine(DomainName)];
        domainUpdated := true;
      } else if StartsWith(line, FromKey) {
        updatedLines := updatedLines + [FromLine(DomainName)];
        mailUpdated := true;
      } else {
        updatedLines := updatedLines + [line];
      }
    }
    assert lines[..|lines|] == lines;
    if !domainUpdated {
      updatedLines := updatedLines + [DomainLine(DomainName)];
    }
    if !mailUpdated {
      updatedLines := updatedLines + [FromLine(DomainName)];
    }
  }
}

/**
 * setup_custom_domain.py: the domain typed by the user is cleaned up, and
 * once Mailgun reports it active the .env file is pointed at it. The
 * Mailgun and DNS calls are replaced by their answers.
 */
module CustomDomainSetup {
  import opened Wrappers
  import opened Text
  import opened EnvLines

  /**
   * update_env_file's loop: the two keys get the new domain and every other
   * line is copied; nothing is appended, so a missing key stays missing.
   */
  method UpdateEnvFile(lines: seq<string>, domainName: string) returns (updatedLines: seq<string>)
    ensures updatedLines == Replaced(lines, domainName)
    ensures |updatedLines| == |lines|
    ensures HasKey(updatedLines, DomainKey) <==> HasKey(lines, DomainKey)
    ensures HasKey(updatedLines, FromKey) <==> HasKey(lines, FromKey)
  {
    updatedLines := [];
    for i := 0 to |lines|
      invariant updatedLines == Replaced(lines[..i], domainName)
    {
      var line := lines[i];
      assert lines[..i + 1] == lines[..i] + [line];
      if StartsWith(line, DomainKey) {
        updatedLines := updatedLines + [DomainLine(domainName)];
      } else if StartsWith(line, FromKey) {
        updatedLines := updatedLines + [FromLine(domainName)];
      } else {
        updatedLines := updatedLines + [line];
      }
    }
    assert lines[..|lines|] == lines;
    ReplacedIdempotent(lines, domainName);
  }

  const Https := "https://"
  const Http := "http://"
  const Www := "www."

  /** The chained replace calls: every "https://", then every "http://", then every "www." is deleted. */
  function Normalise(domain: string): string {
    ReplaceAll(ReplaceAll(ReplaceAll(domain, Https, ""), Http, ""), Www, "")
  }

  /** None of the three removed fragments occurs in d. */
  predicate Clean(d: string) {
    !Contains(d, Https) && !Contains(d, Http) && !Contains(d, Www)
  }

  /** Deleting occurrences of pat from pat + rest deletes the leading one. */
  lemma ReplaceAllLeading(pat: string, rest: string, rep: string)
    requires |pat| > 0
    ensures ReplaceAll(pat + rest, pat, rep) == rep + ReplaceAll(rest, pat, rep)
  {
    assert (pat + rest)[..|pat|] == pat;
    assert (pat + rest)[|pat|..] == rest;
  }

  /** Text at none of whose positions pat begins is passed over. */
  lemma {:induction false} ReplaceAllPassesOver(a: string, rest: string, pat: string, rep: string)
    requires |pat| > 0
    requires forall i :: 0 <= i < |a| ==> !OccursAt(a + rest, pat, i)
    ensures ReplaceAll(a + rest, pat, rep) == a + ReplaceAll(rest, pat, rep)
    decreases |a|
  {
    var s := a + rest;
    if a == [] {
      assert s == rest;
    } else if |s| < |pat| {
      assert ReplaceAll(rest, pat, rep) == rest;
    } else {
      assert !OccursAt(s, pat, 0);
      assert s[1..] == a[1..] + rest;
      forall i | 0 <= i < |a[1..]| ensures !OccursAt(a[1..] + rest, pat, i) {
        assert !OccursAt(s, pat, i + 1);
        if i + |pat| <= |s[1..]| {
          assert s[1..][i..i + |pat|] == s[i + 1..i + 1 + |pat|];
        }
      }
      ReplaceAllPassesOver(a[1..], rest, pat, rep);
      assert [a[0]] + (a[1..] + ReplaceAll(rest, pat, rep)) == a + ReplaceAll(rest, pat, rep);
    }
  }

  /** Text none of whose characters can start pat is passed over. */
  lemma ReplaceAllSkips(a: string, rest: string, pat: string, rep: string)
    requires |pat| > 0
    requires forall i :: 0 <= i < |a| ==> a[i] != pat[0]
    ensures ReplaceAll(a + rest, pat, rep) == a + ReplaceAll(rest, pat, rep)
  {
    var s := a + rest;
    forall i | 0 <= i < |a| ensures !OccursAt(s, pat, i) {
      if i + |pat| <= |s| {
        assert s[i..i + |pat|][0] == s[i] == a[i];
      }
    }
    ReplaceAllPassesOver(a, rest, pat, rep);
  }

  /** "http://" never holds "https://", so the first deletion passes over it. */
  lemma HttpPassedOver(rest: string)
    ensures ReplaceAll(Http + rest, Https, "") == Http + ReplaceAll(rest, Https, "")
  {
    var s := Http + rest;
    forall i | 0 <= i < |Http| ensures !OccursAt(s, Https, i) {
      if i + |Https| <= |s| {
        if i == 0 {
          assert s[i..i + |Https|][4] == s[4] == ':';
        } else {
          assert s[i..i + |Https|][0] == s[i] == Http[i];
        }
      }
    }
    ReplaceAllPassesOver(Http, rest, Https, "");
  }

  /** A clean domain is left as typed. */
  lemma NormaliseClean(d: string)
    requires Clean(d)
    ensures Normalise(d) == d
  {
    ReplaceAllNoOccurrence(d, Https, "");
    ReplaceAllNoOccurrence(d, Http, "");
    ReplaceAllNoOccurrence(d, Www, "");
  }

  /** The scheme and the "www." in front of a clean domain are both stripped. */
  lemma NormaliseStripsPrefix(d: string)
    requires Clean(d)
    ensures Normalise(Https + Www + d) == d
    ensures Normalise(Http + Www + d) == d
  {
    var wd := Www + d;
    ReplaceAllNoOccurrence(d, Https, "");
    ReplaceAllNoOccurrence(d, Http, "");
    ReplaceAllNoOccurrence(d, Www, "");
    ReplaceAllSkips(Www, d, Https, "");
    ReplaceAllSkips(Www, d, Http, "");
    ReplaceAllLeading(Www, d, "");
    assert ReplaceAll(wd, Https, "") == wd;
    assert ReplaceAll(wd, Http, "") == wd;
    assert ReplaceAll(wd, Www, "") == d;
    assert Https + Www + d == Https + wd;
    ReplaceAllLeading(Https, wd, "");
    assert ReplaceAll(Https + wd, Https, "") == wd;
    assert Http + Www + d == Http + wd;
    HttpPassedOver(wd);
    ReplaceAllLeading(Http, wd, "");
    assert ReplaceAll(Http + wd, Https, "") == Http + wd;
    assert ReplaceAll(Http + wd, Http, "") == wd;
  }

  /** A "www." in the middle is deleted too, not only one in front. */
  lemma NormaliseStripsInner(a: string, b: string)
    requires Clean(b)
    requires forall i :: 0 <= i < |a| ==> a[i] != 'h' && a[i] != 'w'
    ensures Normalise(a + Www + b) == a + b
  {
    var aw := a + Www;
    NoSchemeStartBeforeWww(a);
    ReplaceAllSkips(aw, b, Https, "");
    ReplaceAllNoOccurrence(b, Https, "");
    assert ReplaceAll(aw + b, Https, "") == aw + b;
    ReplaceAllSkips(aw, b, Http, "");
    ReplaceAllNoOccurrence(b, Http, "");
    assert ReplaceAll(aw + b, Http, "") == aw + b;
    assert aw + b == a + (Www + b);
    ReplaceAllSkips(a, Www + b, Www, "");
    ReplaceAllLeading(Www, b, "");
    ReplaceAllNoOccurrence(b, Www, "");
    assert ReplaceAll(Www + b, Www, "") == b;
  }

  lemma NoSchemeStartBeforeWww(a: string)
    requires forall i :: 0 <= i < |a| ==> a[i] != 'h'
    ensures forall i :: 0 <= i < |a + Www| ==> (a + Www)[i] != 'h'
  {
    var aw := a + Www;
    forall i | 0 <= i < |aw| ensures aw[i] != 'h' {
      if i >= |a| {
        assert aw[i] == Www[i - |a|];
      }
    }
  }

  /** Normalising never lengthens the domain. */
  lemma NormaliseShrinks(d: string)
    ensures |Normalise(d)| <= |d|
  {
    ReplaceAllByEmptyShrinks(d, Https);
    ReplaceAllByEmptyShrinks(ReplaceAll(d, Https, ""), Http);
    ReplaceAllByEmptyShrinks(ReplaceAll(ReplaceAll(d, Https, ""), Http, ""), Www);
  }

  /** main as written: the emptiness check is made on the stripped input, before normalising. */
  function DomainToSetUpAsWritten(input: string): (r: Option<string>)
    ensures r.None? <==> AllSpace(input)
  {
    TrimEmptyIffAllSpace(input);
    var d := Trim(input);
    if d == "" then None else Some(Normalise(d))
  }

  /** Typing only a scheme gets past the check, and Mailgun is asked to add the empty domain. */
  lemma SchemeOnlyReachesMailgun()
    ensures DomainToSetUpAsWritten(Https) == Some("")
  {
    TrimPadded("", Https, "");
    assert "" + Https + "" == Https;
    assert Https == Https + "";
    ReplaceAllLeading(Https, "", "");
    assert ReplaceAll("", Http, "") == "";
  }

  /** main with the check after normalising: a domain handed on is never empty. */
  function DomainToSetUp(input: string): (r: Option<string>)
    ensures r.None? <==> Normalise(Trim(input)) == ""
    ensures r.Some? ==> r.value != "" && r.value == Normalise(Trim(input))
  {
    var d := Normalise(Trim(input));
    if d == "" then None else Some(d)
  }

  /** The corrected check agrees with the written one on every input that does not normalise to nothing. */
  lemma DomainToSetUpAgrees(input: string)
    requires Normalise(Trim(input)) != ""
    ensures DomainToSetUp(input) == DomainToSetUpAsWritten(input)
  {
  }

  /** What check_domain_status prints for Mailgun's answer; the state defaults to "unknown". */
  datatype StatusReport = Active | Unverified | OtherState(state: string) | HttpError(code: int)

  function StatusReportOf(statusCode: int, state: Option<string>): (r: StatusReport)
    ensures r.HttpError? <==> statusCode != 200
    ensures r.HttpError? ==> r.code == statusCode
    ensures r.Active? <==> statusCode == 200 && state == Some("active")
    ensures r.Unverified? <==> statusCode == 200 && state == Some("unverified")
    ensures r.OtherState? ==> r.state == (if state.Some? then state.value else "unknown")
    ensures r.OtherState? ==> r.state != "active" && r.state != "unverified"
  {
    if statusCode != 200 then HttpError(statusCode)
    else
      var s := if state.Some? then state.value else "unknown";
      if s == "active" then Active
      else if s == "unverified" then Unverified
      else OtherState(s)
  }

  /** check_domain_status succeeds exactly when Mailgun answers 200 with state "active". */
  function CheckDomainStatus(statusCode: int, state: Option<string>): (ok: bool)
    ensures ok <==> statusCode == 200 && state == Some("active")
  {
    StatusReportOf(statusCode, state).Active?
  }

  /**
   * main's effect on the .env lines: they are rewritten with the domain only
   * when the input got past the check, Mailgun added the domain and its
   * status is active. The check is the one main makes, before normalising.
   */
  function SetupEnv(lines: seq<string>, input: string, added: bool,
                    statusCode: int, state: Option<string>): (r: seq<string>)
    ensures |r| == |lines|
    ensures r != lines ==> DomainToSetUpAsWritten(input).Some? && added && CheckDomainStatus(statusCode, state)
    ensures DomainToSetUpAsWritten(input).Some? && added && CheckDomainStatus(statusCode, state) ==>
              r == Replaced(lines, DomainToSetUpAsWritten(input).value)
  {
    match DomainToSetUpAsWritten(input)
    case None => lines
    case Some(d) => if added && CheckDomainStatus(statusCode, state) then Replaced(lines, d) else lines
  }

  /**
   * Typing only a scheme, with Mailgun answering that the domain was added
   * and is active, points the file at the empty domain.
   */
  lemma SchemeOnlyEmptiesDomain(lines: seq<string>)
    ensures SetupEnv(lines, Https, true, 200, Some("active")) == Replaced(lines, "")
    ensures DomainLine("") == DomainKey + "\n"
  {
    SchemeOnlyReachesMailgun();
    assert CheckDomainStatus(200, Some("active"));
  }

  /** With the check on the normalised domain, the file is only ever pointed at a non-empty domain. */
  function SetupEnvChecked(lines: seq<string>, input: string, added: bool,
                           statusCode: int, state: Option<string>): (r: seq<string>)
    ensures |r| == |lines|
    ensures r != lines ==> exists d :: d != "" && r == Replaced(lines, d)
    ensures DomainToSetUp(input).Some? && added && CheckDomainStatus(statusCode, state) ==>
              r == Replaced(lines, DomainToSetUp(input).value)
  {
    match DomainToSetUp(input)
    case None => lines
    case Some(d) => if added && CheckDomainStatus(statusCode, state) then Replaced(lines, d) else lines
  }
}
