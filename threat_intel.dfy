/** The VirusTotal lookup of GET /api/virustotal/scan: the classification of
    the query as an IP address, a domain or a file hash by the handler's three
    regular expressions, and the tally of the engines that flag it. Each
    regular expression is stated twice: as the shape it describes and as a
    scan over the query, proved equal. */
module ThreatIntel {
  import opened Base
  import opened Text

  predicate IsAsciiLetter(c: char) {
    ('a' <= c <= 'z') || ('A' <= c <= 'Z')
  }

  /** `[a-zA-Z0-9.-]`. */
  predicate IsDomainChar(c: char) {
    IsAsciiLetter(c) || IsDigit(c) || c == '.' || c == '-'
  }

  /** `[a-f0-9]` under the `i` flag. */
  predicate IsHexChar(c: char) {
    IsDigit(c) || ('a' <= c <= 'f') || ('A' <= c <= 'F')
  }

  // ---------------------------------------------------------------------
  // IP addresses: /^(?:[0-9]{1,3}\.){3}[0-9]{1,3}$/

  /** `[0-9]{1,3}`: one to three digits, with no check of the range 0..255. */
  predicate DigitGroup(g: string) {
    1 <= |g| <= 3 && forall i :: 0 <= i < |g| ==> IsDigit(g[i])
  }

  predicate NoDot(g: string) {
    forall i :: 0 <= i < |g| ==> g[i] != '.'
  }

  /** The groups joined by dots. */
  function JoinDots(g: seq<string>): string
    requires |g| >= 1
  {
    if |g| == 1 then g[0] else g[0] + "." + JoinDots(g[1..])
  }

  /** `s.split('.')`: the maximal dot-free pieces of `s`. */
  function SplitDots(s: string): (g: seq<string>)
    ensures |g| >= 1
  {
    if s == [] then [[]]
    else
      var rest := SplitDots(s[1..]);
      if s[0] == '.' then [[]] + rest else [[s[0]] + rest[0]] + rest[1..]
  }

  /** The shape the IP pattern describes: four digit groups joined by dots. */
  ghost predicate IpShape(s: string) {
    exists g :: |g| == 4 && JoinDots(g) == s && (forall i :: 0 <= i < 4 ==> DigitGroup(g[i]))
  }

  /** The IP test as a scan: the dot-separated pieces are four digit groups. */
  predicate IsIp(s: string) {
    var g := SplitDots(s);
    |g| == 4 && forall i :: 0 <= i < 4 ==> DigitGroup(g[i])
  }

  lemma {:induction false} JoinSplit(s: string)
    ensures JoinDots(SplitDots(s)) == s
    decreases |s|
  {
    if s != [] {
      var rest := SplitDots(s[1..]);
      JoinSplit(s[1..]);
      if s[0] == '.' {
        var g: seq<string> := [[]] + rest;
        assert g[0] == [] && g[1..] == rest;
        assert s == [] + "." + s[1..];
      } else {
        var g := [[s[0]] + rest[0]] + rest[1..];
        if |rest| == 1 {
          assert s == [s[0]] + s[1..];
        } else {
          assert g[1..] == rest[1..];
          assert JoinDots(rest) == rest[0] + "." + JoinDots(rest[1..]);
          assert s == [s[0]] + s[1..];
        }
      }
    }
  }

  lemma {:induction false} SplitDotFree(a: string)
    requires NoDot(a)
    ensures SplitDots(a) == [a]
    decreases |a|
  {
    if a != [] {
      SplitDotFree(a[1..]);
      assert a == [a[0]] + a[1..];
    }
  }

  lemma {:induction false} SplitAfterGroup(a: string, r: string)
    requires NoDot(a)
    ensures SplitDots(a + "." + r) == [a] + SplitDots(r)
    decreases |a|
  {
    var s := a + "." + r;
    if a == [] {
      assert s[0] == '.' && s[1..] == r;
    } else {
      assert s[0] == a[0] && s[1..] == a[1..] + "." + r;
      SplitAfterGroup(a[1..], r);
      assert a == [a[0]] + a[1..];
    }
  }

  lemma {:induction false} SplitJoin(g: seq<string>)
    requires |g| >= 1 && forall i :: 0 <= i < |g| ==> NoDot(g[i])
    ensures SplitDots(JoinDots(g)) == g
    decreases |g|
  {
    if |g| == 1 {
      SplitDotFree(g[0]);
    } else {
      SplitAfterGroup(g[0], JoinDots(g[1..]));
      SplitJoin(g[1..]);
      assert g == [g[0]] + g[1..];
    }
  }

  /** The scan accepts exactly the strings of the IP pattern. */
  lemma IsIpCorrect(s: string)
    ensures IsIp(s) <==> IpShape(s)
  {
    if IsIp(s) {
      JoinSplit(s);
      assert |SplitDots(s)| == 4 && JoinDots(SplitDots(s)) == s;
    }
    if IpShape(s) {
      var g :| |g| == 4 && JoinDots(g) == s && (forall i :: 0 <= i < 4 ==> DigitGroup(g[i]));
      assert forall i :: 0 <= i < |g| ==> NoDot(g[i]) by {
        forall i | 0 <= i < |g| ensures NoDot(g[i]) {
          assert DigitGroup(g[i]);
        }
      }
      SplitJoin(g);
    }
  }

  /** The last piece of `s.split('.')` is a suffix of `s`. */
  lemma {:induction false} LastPieceIsSuffix(s: string)
    ensures var g := SplitDots(s); var l := g[|g| - 1]; |l| <= |s| && s[|s| - |l|..] == l
    decreases |s|
  {
    if s != [] {
      LastPieceIsSuffix(s[1..]);
      var rest := SplitDots(s[1..]);
      var g := SplitDots(s);
      if s[0] == '.' {
        assert g[|g| - 1] == rest[|rest| - 1];
      } else if |rest| == 1 {
        JoinSplit(s[1..]);
        assert g[|g| - 1] == [s[0]] + s[1..];
      } else {
        assert g[|g| - 1] == rest[|rest| - 1];
      }
    }
  }

  /** A string without a dot is a single piece. */
  lemma IpHasDots(s: string)
    requires IsIp(s)
    ensures exists i :: 0 <= i < |s| && s[i] == '.'
  {
    if NoDot(s) {
      SplitDotFree(s);
      assert false;
    }
  }

  // ---------------------------------------------------------------------
  // Domains: /^[a-zA-Z0-9.-]+\.[a-zA-Z]{2,}$/

  /** `s` splits at the dot `s[k]` into a non-empty run of domain characters
      and at least two letters. */
  predicate DomainSplitAt(s: string, k: int) {
    && 1 <= k < |s| && s[k] == '.'
    && (forall i :: 0 <= i < k ==> IsDomainChar(s[i]))
    && |s| - k - 1 >= 2
    && (forall i :: k < i < |s| ==> IsAsciiLetter(s[i]))
  }

  /** The shape the domain pattern describes, for some choice of the dot. */
  ghost predicate DomainShape(s: string) {
    exists k :: DomainSplitAt(s, k)
  }

  /** Number of letters `s` ends in. */
  function TrailingLetters(s: string): (t: nat)
    ensures t <= |s|
    ensures forall i :: |s| - t <= i < |s| ==> IsAsciiLetter(s[i])
    ensures t < |s| ==> !IsAsciiLetter(s[|s| - 1 - t])
  {
    if s == [] || !IsAsciiLetter(s[|s| - 1]) then 0
    else
      var p := s[..|s| - 1];
      var t := 1 + TrailingLetters(p);
      assert forall i :: |s| - t <= i < |s| - 1 ==> s[i] == p[i];
      t
  }

  /** The domain test as a scan: only domain characters, and the last dot
      has a non-empty prefix and at least two letters after it. */
  predicate IsDomain(s: string) {
    var t := TrailingLetters(s);
    && (forall i :: 0 <= i < |s| ==> IsDomainChar(s[i]))
    && 2 <= t && t + 2 <= |s| && s[|s| - 1 - t] == '.'
  }

  /** The scan accepts exactly the strings of the domain pattern: the dot the
      pattern needs can only be the one before the trailing letters. */
  lemma IsDomainCorrect(s: string)
    ensures IsDomain(s) <==> DomainShape(s)
  {
    var t := TrailingLetters(s);
    if IsDomain(s) {
      assert DomainSplitAt(s, |s| - 1 - t);
    }
    if DomainShape(s) {
      var k :| DomainSplitAt(s, k);
      assert t == |s| - 1 - k;
      forall i | 0 <= i < |s| ensures IsDomainChar(s[i]) {
        if i > k {
          assert IsAsciiLetter(s[i]);
        }
      }
    }
  }

  // ---------------------------------------------------------------------
  // Hashes: /^[a-f0-9]{32}$|^[a-f0-9]{40}$|^[a-f0-9]{64}$/i

  /** An MD5, SHA-1 or SHA-256 digest in hexadecimal, in either case. */
  predicate IsHash(s: string) {
    (|s| == 32 || |s| == 40 || |s| == 64) && forall i :: 0 <= i < |s| ==> IsHexChar(s[i])
  }

  /** No query matches two of the patterns, so the order in which the
      handler tries them does not change the classification. */
  lemma PatternsAreDisjoint(s: string)
    ensures !(IsIp(s) && IsDomain(s))
    ensures !(IsIp(s) && IsHash(s))
    ensures !(IsDomain(s) && IsHash(s))
  {
    if IsIp(s) {
      var g := SplitDots(s);
      LastPieceIsSuffix(s);
      assert DigitGroup(g[3]);
      assert s[|s| - 1] == g[3][|g[3]| - 1];
      IpHasDots(s);
    }
    if IsDomain(s) {
      var t := TrailingLetters(s);
      assert s[|s| - 1 - t] == '.';
    }
  }

  /** The pattern checks no range: every group of up to three digits passes. */
  lemma IpWithoutRangeCheck()
    ensures IsIp("999.999.999.999")
  {
    var g := ["999", "999", "999", "999"];
    assert g[1..] == ["999", "999", "999"] && g[2..] == ["999", "999"] && g[3..] == ["999"];
    assert JoinDots(g[2..]) == "999.999";
    assert JoinDots(g[1..]) == "999.999.999";
    assert JoinDots(g) == "999.999.999.999";
    assert forall i :: 0 <= i < 4 ==> DigitGroup(g[i]);
    IsIpCorrect("999.999.999.999");
  }

  // ---------------------------------------------------------------------
  // Classification

  datatype QueryKind = IpAddress | Domain | File

  /** The `type` field of the response. */
  function KindName(k: QueryKind): string {
    match k
    case IpAddress => "ip_address"
    case Domain => "domain"
    case File => "file"
  }

  function UrlPrefix(k: QueryKind): string {
    match k
    case IpAddress => "https://www.virustotal.com/api/v3/ip_addresses/"
    case Domain => "https://www.virustotal.com/api/v3/domains/"
    case File => "https://www.virustotal.com/api/v3/files/"
  }

  datatype ScanFailure =
    | MissingQuery    // 400
    | MissingApiKey   // 500
    | InvalidFormat   // 400

  function ScanStatus(f: ScanFailure): int {
    match f
    case MissingQuery => 400
    case MissingApiKey => 500
    case InvalidFormat => 400
  }

  /** The lookup the handler makes, or the error it answers with. */
  datatype Lookup = Scan(kind: QueryKind, url: string) | Rejected(failure: ScanFailure)

  /** The checks before the VirusTotal call: a missing query first, then a
      missing API key, then the three patterns in order. */
  function Classify(query: Option<string>, keyConfigured: bool): (r: Lookup)
    ensures !Truthy(query) <==> r == Rejected(MissingQuery)
    ensures Truthy(query) && !keyConfigured <==> r == Rejected(MissingApiKey)
    ensures r.Scan? ==> r.url == UrlPrefix(r.kind) + query.value
    ensures Truthy(query) && keyConfigured ==>
              && (r == Rejected(InvalidFormat) <==> !IpShape(query.value) && !DomainShape(query.value) && !IsHash(query.value))
              && (r.Scan? && r.kind == IpAddress <==> IpShape(query.value))
              && (r.Scan? && r.kind == Domain <==> DomainShape(query.value))
              && (r.Scan? && r.kind == File <==> IsHash(query.value))
  {
    if !Truthy(query) then Rejected(MissingQuery)
    else if !keyConfigured then Rejected(MissingApiKey)
    else
      var q := query.value;
      IsIpCorrect(q);
      IsDomainCorrect(q);
      PatternsAreDisjoint(q);
      if IsIp(q) then Scan(IpAddress, UrlPrefix(IpAddress) + q)
      else if IsDomain(q) then Scan(Domain, UrlPrefix(Domain) + q)
      else if IsHash(q) then Scan(File, UrlPrefix(File) + q)
      else Rejected(InvalidFormat)
  }

  // ---------------------------------------------------------------------
  // Detection tally

  /** One engine's entry of `last_analysis_results`. */
  datatype EngineResult = EngineResult(category: string, result: Option<string>, engineMethod: string)

  /** `last_analysis_results`, in the order `for...in` visits its keys. */
  type AnalysisResults = seq<(string, EngineResult)>

  /** Keys of a JavaScript object are distinct. */
  predicate DistinctEngines(rs: AnalysisResults) {
    forall i, j :: 0 <= i < j < |rs| ==> rs[i].0 != rs[j].0
  }

  predicate IsMalicious(r: EngineResult) {
    r.category == "malicious"
  }

  /** The entries of the engines that flag the query, in visiting order. */
  function MaliciousEntries(rs: AnalysisResults): (m: AnalysisResults)
    ensures |m| <= |rs|
    ensures forall i :: 0 <= i < |m| ==> IsMalicious(m[i].1) && m[i] in rs
  {
    if rs == [] then []
    else
      var init := MaliciousEntries(rs[..|rs| - 1]);
      var last := rs[|rs| - 1];
      assert forall e :: e in rs[..|rs| - 1] ==> e in rs;
      if IsMalicious(last.1) then init + [last] else init
  }

  /** An object built from entries, later keys overwriting earlier ones. */
  function EntriesMap(rs: AnalysisResults): (m: map<string, EngineResult>)
    ensures forall e :: e in m <==> exists i :: 0 <= i < |rs| && rs[i].0 == e
  {
    if rs == [] then map[]
    else
      var init := rs[..|rs| - 1];
      var m := EntriesMap(init);
      assert forall i :: 0 <= i < |init| ==> init[i] == rs[i];
      m[rs[|rs| - 1].0 := rs[|rs| - 1].1]
  }

  /** The `for...in` loop: `detected` counts the malicious entries and
      `detections` collects them by engine name. */
  method Tally(rs: AnalysisResults) returns (detected: nat, detections: map<string, EngineResult>)
    ensures detected == |MaliciousEntries(rs)|
    ensures detections == EntriesMap(MaliciousEntries(rs))
  {
    detected := 0;
    detections := map[];
    var i := 0;
    while i < |rs|
      invariant 0 <= i <= |rs|
      invariant detected == |MaliciousEntries(rs[..i])|
      invariant detections == EntriesMap(MaliciousEntries(rs[..i]))
    {
      assert rs[..i + 1][..i] == rs[..i];
      if rs[i].1.category == "malicious" {
        detected := detected + 1;
        detections := detections[rs[i].0 := rs[i].1];
      }
      i := i + 1;
    }
    assert rs[..|rs|] == rs;
  }

  /** The entries of distinct engines stay distinct after filtering. */
  lemma {:induction false} MaliciousDistinct(rs: AnalysisResults)
    requires DistinctEngines(rs)
    ensures DistinctEngines(MaliciousEntries(rs))
    ensures forall i :: 0 <= i < |MaliciousEntries(rs)| ==>
              exists j :: 0 <= j < |rs| && rs[j] == MaliciousEntries(rs)[i]
  {
    if rs != [] {
      var init := rs[..|rs| - 1];
      assert DistinctEngines(init);
      MaliciousDistinct(init);
      var m := MaliciousEntries(init);
      forall i | 0 <= i < |m| ensures m[i].0 != rs[|rs| - 1].0 {
        var j :| 0 <= j < |init| && init[j] == m[i];
        assert rs[j] == m[i];
      }
      forall i | 0 <= i < |m| ensures exists j :: 0 <= j < |rs| && rs[j] == m[i] {
        var j :| 0 <= j < |init| && init[j] == m[i];
        assert rs[j] == init[j];
      }
    }
  }

  /** With distinct entries, a later key never overwrites an earlier one. */
  lemma {:induction false} EntriesMapValues(rs: AnalysisResults)
    requires DistinctEngines(rs)
    ensures |EntriesMap(rs).Keys| == |rs|
    ensures forall i :: 0 <= i < |rs| ==> EntriesMap(rs)[rs[i].0] == rs[i].1
  {
    if rs != [] {
      var init := rs[..|rs| - 1];
      assert DistinctEngines(init);
      EntriesMapValues(init);
      var last := rs[|rs| - 1];
      assert last.0 !in EntriesMap(init);
      assert EntriesMap(rs).Keys == EntriesMap(init).Keys + {last.0};
      forall i | 0 <= i < |rs| ensures EntriesMap(rs)[rs[i].0] == rs[i].1 {
        if i < |rs| - 1 {
          assert init[i] == rs[i];
        }
      }
    }
  }

  /** The report's counts: `detected_by` is the number of engine names in
      `detections`, at most `total_engines`, and every engine that answered
      `malicious` is listed with its own result, and only those. */
  lemma TallyReport(rs: AnalysisResults)
    requires DistinctEngines(rs)
    ensures var m := MaliciousEntries(rs);
            var d := EntriesMap(m);
            && |d.Keys| == |m| <= |rs|
            && (forall i :: 0 <= i < |rs| && IsMalicious(rs[i].1) ==> rs[i].0 in d && d[rs[i].0] == rs[i].1)
            && (forall e :: e in d ==> IsMalicious(d[e]) && exists i :: 0 <= i < |rs| && rs[i] == (e, d[e]))
  {
    var m := MaliciousEntries(rs);
    MaliciousDistinct(rs);
    EntriesMapValues(m);
    var d := EntriesMap(m);
    forall i | 0 <= i < |rs| && IsMalicious(rs[i].1) ensures rs[i].0 in d && d[rs[i].0] == rs[i].1 {
      MaliciousComplete(rs, i);
      var j :| 0 <= j < |m| && m[j] == rs[i];
      assert d[m[j].0] == m[j].1;
    }
    forall e | e in d ensures IsMalicious(d[e]) && exists i :: 0 <= i < |rs| && rs[i] == (e, d[e]) {
      var j :| 0 <= j < |m| && m[j].0 == e;
      assert d[m[j].0] == m[j].1;
      var i :| 0 <= i < |rs| && rs[i] == m[j];
    }
  }

  /** Every malicious entry is kept by the filter. */
  lemma {:induction false} MaliciousComplete(rs: AnalysisResults, i: int)
    requires 0 <= i < |rs| && IsMalicious(rs[i].1)
    ensures exists j :: 0 <= j < |MaliciousEntries(rs)| && MaliciousEntries(rs)[j] == rs[i]
  {
    var init := rs[..|rs| - 1];
    var m := MaliciousEntries(init);
    if i == |rs| - 1 {
      assert MaliciousEntries(rs)[|m|] == rs[i];
    } else {
      assert init[i] == rs[i];
      MaliciousComplete(init, i);
      var j :| 0 <= j < |m| && m[j] == rs[i];
      assert MaliciousEntries(rs)[j] == m[j];
    }
  }
}
