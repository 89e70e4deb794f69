/** The file-download path of the fetcher: a bounded retry loop over injected
    attempt outcomes, with exponential backoff and a one-time switch to
    unverified TLS when certificate verification fails on the second-to-last
    attempt. Sleeping is recorded as a number of seconds, never performed. */
module Download {
  import opened Wrappers
  import opened FetchPlan

  /** What one attempt did: the request raised (and whether the error text
      names CERTIFICATE_VERIFY_FAILED), or the body was written to disk with a
      size and the outcome of the parse check. */
  datatype Attempt =
    | RequestFailed(certificateVerifyFailed: bool)
    | Saved(sizeBytes: nat, verified: bool)

  /** The outcome of attempt `i`; attempts past the injected ones fail plainly. */
  function AttemptAt(outcomes: seq<Attempt>, i: nat): Attempt {
    if i < |outcomes| then outcomes[i] else RequestFailed(false)
  }

  /** A saved file counts as downloaded when it passed the parse check or is
      not empty; an empty unparseable file makes the whole fetch fail. */
  predicate Succeeds(a: Attempt) {
    a.Saved? && (a.verified || a.sizeBytes > 0)
  }

  predicate CertFailureAt(outcomes: seq<Attempt>, i: nat) {
    AttemptAt(outcomes, i) == RequestFailed(true)
  }

  /** `True` with the recorded verification outcome, `False`, or, when the
      retry count is zero and the loop body never runs, no result at all. */
  datatype Verdict = Downloaded(verificationPassed: bool) | Failed | NoAttempt

  /** The visible behaviour of one download: its verdict, the TLS verification
      flag each attempt ran with, and the seconds slept after each attempt
      that was retried (0 for the switch to unverified TLS, which does not sleep). */
  datatype Trace = Trace(verdict: Verdict, verifyFlags: seq<bool>, waits: seq<nat>)

  /** The retry loop from attempt `attempt` on: it stops at the first saved
      file or after the last attempt, and only a saved file that passes
      `Succeeds` is a download. */
  function Run(retries: nat, attempt: nat, verify: bool, outcomes: seq<Attempt>): (t: Trace)
    requires attempt < retries
    decreases retries - attempt
    ensures var n := |t.verifyFlags|;
      && 1 <= n <= retries - attempt
      && |t.waits| == n - 1
      && t.verdict != NoAttempt
      && (forall k :: attempt <= k < attempt + n - 1 ==> AttemptAt(outcomes, k).RequestFailed?)
      && (AttemptAt(outcomes, attempt + n - 1).Saved? || attempt + n == retries)
      && (t.verdict.Downloaded? <==> Succeeds(AttemptAt(outcomes, attempt + n - 1)))
      && (t.verdict.Downloaded? ==> t.verdict.verificationPassed == AttemptAt(outcomes, attempt + n - 1).verified)
  {
    match AttemptAt(outcomes, attempt)
    case Saved(size, ok) =>
      Trace(if ok || size > 0 then Downloaded(ok) else Failed, [verify], [])
    case RequestFailed(cert) =>
      if cert && verify && attempt == retries - 2 then
        var rest := Run(retries, attempt + 1, false, outcomes);
        Trace(rest.verdict, [verify] + rest.verifyFlags, [0] + rest.waits)
      else if attempt < retries - 1 then
        var rest := Run(retries, attempt + 1, verify, outcomes);
        Trace(rest.verdict, [verify] + rest.verifyFlags, [Pow2(attempt)] + rest.waits)
      else
        Trace(Failed, [verify], [])
  }

  /** Verification stays as configured on every attempt but the last, which
      runs unverified exactly when the second-to-last attempt hit a
      certificate failure with verification on. */
  lemma {:induction false} RunFlags(retries: nat, attempt: nat, verify: bool, outcomes: seq<Attempt>)
    requires attempt < retries
    ensures forall j :: 0 <= j < |Run(retries, attempt, verify, outcomes).verifyFlags| ==>
        Run(retries, attempt, verify, outcomes).verifyFlags[j] == (verify && !(j > 0 && attempt + j == retries - 1 && CertFailureAt(outcomes, retries - 2)))
    decreases retries - attempt
  {
    var t := Run(retries, attempt, verify, outcomes);
    if AttemptAt(outcomes, attempt).RequestFailed? && |t.verifyFlags| > 1 {
      var cert := AttemptAt(outcomes, attempt).certificateVerifyFailed;
      var v := if cert && verify && attempt == retries - 2 then false else verify;
      var rest := Run(retries, attempt + 1, v, outcomes);
      assert t.verifyFlags == [verify] + rest.verifyFlags;
      RunFlags(retries, attempt + 1, v, outcomes);
      forall j | 0 < j < |t.verifyFlags|
        ensures t.verifyFlags[j] == (verify && !(attempt + j == retries - 1 && CertFailureAt(outcomes, retries - 2)))
      {
        assert t.verifyFlags[j] == rest.verifyFlags[j - 1];
        assert rest.verifyFlags[j - 1] == (v && !(j - 1 > 0 && attempt + j == retries - 1 && CertFailureAt(outcomes, retries - 2)));
        if v != verify {
          assert j == 1 && attempt == retries - 2 && CertFailureAt(outcomes, retries - 2);
        } else if j == 1 && verify && attempt == retries - 2 {
          assert !CertFailureAt(outcomes, retries - 2);
        }
      }
    } else {
      assert t.verifyFlags == [verify];
    }
  }

  /** The wait after each retried attempt is `2 ** attempt` seconds, except
      the switch to unverified TLS after a certificate failure on the
      second-to-last attempt, which waits nothing. */
  lemma {:induction false} RunWaits(retries: nat, attempt: nat, verify: bool, outcomes: seq<Attempt>)
    requires attempt < retries
    ensures forall j :: 0 <= j < |Run(retries, attempt, verify, outcomes).waits| ==>
        Run(retries, attempt, verify, outcomes).waits[j] == (if verify && attempt + j == retries - 2 && CertFailureAt(outcomes, retries - 2) then 0 else Pow2(attempt + j))
    decreases retries - attempt
  {
    var t := Run(retries, attempt, verify, outcomes);
    if AttemptAt(outcomes, attempt).RequestFailed? && |t.waits| > 0 {
      var cert := AttemptAt(outcomes, attempt).certificateVerifyFailed;
      var switch := cert && verify && attempt == retries - 2;
      var v := if switch then false else verify;
      var rest := Run(retries, attempt + 1, v, outcomes);
      assert t.waits == [if switch then 0 else Pow2(attempt)] + rest.waits;
      RunWaits(retries, attempt + 1, v, outcomes);
      forall j | 0 < j < |t.waits|
        ensures t.waits[j] == (if verify && attempt + j == retries - 2 && CertFailureAt(outcomes, retries - 2) then 0 else Pow2(attempt + j))
      {
        assert t.waits[j] == rest.waits[j - 1];
        assert rest.waits[j - 1] == (if v && attempt + j == retries - 2 && CertFailureAt(outcomes, retries - 2) then 0 else Pow2(attempt + j));
      }
    } else {
      assert |t.waits| == 0;
    }
  }

  /** The download loop of `_fetch_file`: at most `retries` attempts; the
      first saved file ends the loop; a request failure is retried after
      `2 ** attempt` seconds, except on the last attempt, which fails, and
      except a certificate failure on the second-to-last attempt with
      verification on, which turns verification off without sleeping. */
  function Download(retries: nat, verifyInitially: bool, outcomes: seq<Attempt>): (t: Trace)
    ensures var n := |t.verifyFlags|;
      && n <= retries
      && |t.waits| == (if n == 0 then 0 else n - 1)
      && (t.verdict == NoAttempt <==> retries == 0)
      && (forall j :: 0 <= j < n - 1 ==> AttemptAt(outcomes, j).RequestFailed?)
      && (n > 0 ==> AttemptAt(outcomes, n - 1).Saved? || n == retries)
      && (t.verdict.Downloaded? <==> n > 0 && Succeeds(AttemptAt(outcomes, n - 1)))
      && (t.verdict.Downloaded? ==> t.verdict.verificationPassed == AttemptAt(outcomes, n - 1).verified)
      && (forall j :: 0 <= j < n ==>
            t.verifyFlags[j] == (verifyInitially && !(j == retries - 1 && j > 0 && CertFailureAt(outcomes, retries - 2))))
      && (forall j :: 0 <= j < n - 1 ==>
            t.waits[j] == (if verifyInitially && j == retries - 2 && CertFailureAt(outcomes, j) then 0 else Pow2(j)))
  {
    if retries == 0 then Trace(NoAttempt, [], [])
    else
      RunFlags(retries, 0, verifyInitially, outcomes);
      RunWaits(retries, 0, verifyInitially, outcomes);
      Run(retries, 0, verifyInitially, outcomes)
  }

  /** Request failures on every attempt exhaust the retries: each attempt is
      made, all but the last are followed by a backoff, and the fetch fails. */
  lemma ExhaustedRetries(retries: nat, verify: bool, outcomes: seq<Attempt>)
    requires retries > 0
    requires forall i :: 0 <= i < retries ==> AttemptAt(outcomes, i) == RequestFailed(false)
    ensures Download(retries, verify, outcomes).verdict == Failed
    ensures |Download(retries, verify, outcomes).verifyFlags| == retries
    ensures forall j :: 0 <= j < retries - 1 ==> Download(retries, verify, outcomes).waits[j] == Pow2(j)
  {
    var t := Download(retries, verify, outcomes);
    var n := |t.verifyFlags|;
    assert AttemptAt(outcomes, n - 1) == RequestFailed(false);
  }

  /** The outcome of `_fetch_file`: no request without a truthy data link;
      otherwise the chosen file name and the download trace. */
  datatype FileFetch = NoDataLink | Attempted(fileName: string, trace: Trace)

  /** `_fetch_file`, with `urlparse` supplied as `urlPath`. */
  function FetchFile(link: Link, urlPath: string -> string, format: Option<string>, sourceId: string,
                     action: string, skipSslVerify: Option<string>, retries: nat,
                     outcomes: seq<Attempt>): (r: FileFetch)
    ensures r == NoDataLink <==> !link.Truthy()
    ensures r.Attempted? ==> r.fileName == FileName(urlPath(link.text), format, sourceId, action)
    ensures r.Attempted? ==> r.trace == Download(retries, VerifySsl(skipSslVerify), outcomes)
  {
    if !link.Truthy() then NoDataLink
    else Attempted(FileName(urlPath(link.text), format, sourceId, action),
                   Download(retries, VerifySsl(skipSslVerify), outcomes))
  }

  /** Whether `_fetch_file` returned `True`. */
  predicate FetchFileSucceeded(r: FileFetch) {
    r.Attempted? && r.trace.verdict.Downloaded?
  }

  /** Attempt `n - 1`, within the budget, is the first to save a file, and
      that file is non-empty or parses. */
  predicate FirstSaveSucceeds(retries: nat, outcomes: seq<Attempt>, n: nat) {
    && 0 < n <= retries
    && (forall j :: 0 <= j < n - 1 ==> AttemptAt(outcomes, j).RequestFailed?)
    && Succeeds(AttemptAt(outcomes, n - 1))
  }

  /** `_fetch_file` returns `True` exactly when there is a truthy link and
      some attempt within the retry budget is a first saved file that is
      non-empty or parses. */
  lemma FetchFileSucceeds(link: Link, urlPath: string -> string, format: Option<string>, sourceId: string,
                          action: string, skipSslVerify: Option<string>, retries: nat, outcomes: seq<Attempt>)
    ensures FetchFileSucceeded(FetchFile(link, urlPath, format, sourceId, action, skipSslVerify, retries, outcomes))
            <==> (link.Truthy() && exists n: nat :: FirstSaveSucceeds(retries, outcomes, n))
  {
    var t := Download(retries, VerifySsl(skipSslVerify), outcomes);
    if link.Truthy() && retries > 0 {
      DownloadAttempts(retries, VerifySsl(skipSslVerify), outcomes);
      FirstSaveDecides(retries, outcomes, |t.verifyFlags|, t.verdict.Downloaded?);
    }
  }

  /** The loop's verdict, read off the attempt that ended it, is the
      existence of a first saved file that counts. */
  lemma FirstSaveDecides(retries: nat, outcomes: seq<Attempt>, m: nat, downloaded: bool)
    requires 0 < m <= retries
    requires forall j :: 0 <= j < m - 1 ==> AttemptAt(outcomes, j).RequestFailed?
    requires AttemptAt(outcomes, m - 1).Saved? || m == retries
    requires downloaded <==> Succeeds(AttemptAt(outcomes, m - 1))
    ensures downloaded <==> exists n: nat :: FirstSaveSucceeds(retries, outcomes, n)
  {
    if downloaded {
      assert FirstSaveSucceeds(retries, outcomes, m);
    }
    forall n: nat | FirstSaveSucceeds(retries, outcomes, n)
      ensures downloaded
    {
      FirstSaveAt(retries, outcomes, m, n);
    }
  }

  /** With a positive budget the loop makes at least one attempt. */
  lemma DownloadAttempts(retries: nat, verify: bool, outcomes: seq<Attempt>)
    requires retries > 0
    ensures |Download(retries, verify, outcomes).verifyFlags| > 0
  {
    RunFlags(retries, 0, verify, outcomes);
  }

  /** The attempt that ends the loop is the first saved one, so it is the
      attempt `FirstSaveSucceeds` names. */
  lemma FirstSaveAt(retries: nat, outcomes: seq<Attempt>, m: nat, n: nat)
    requires 0 < m <= retries
    requires forall j :: 0 <= j < m - 1 ==> AttemptAt(outcomes, j).RequestFailed?
    requires AttemptAt(outcomes, m - 1).Saved? || m == retries
    requires FirstSaveSucceeds(retries, outcomes, n)
    ensures m == n
  {
  }
}
