/** A git checkout target and its validation (contrib/git/repo.go). */
module GitRepo {
  import opened Errors

  datatype Repo = Repo(url: string, branch: string, user: string, pass: string)

  const UrlRequired := "URL required"
  const BranchRequired := "Branch required"
  const CredentialsMismatch := "User and pass are both required or neither required"

  /** The order in which `Validate` reports problems. */
  const RepoChecks := [UrlRequired, BranchRequired, CredentialsMismatch]

  /** A repo `Validate` accepts: a URL, a branch, and a user exactly when a password. */
  predicate ValidRepo(r: Repo)
  {
    r.url != "" && r.branch != "" && ((r.user == "") == (r.pass == ""))
  }

  /** The problems with `r`: each message appears exactly when its condition fails. */
  function RepoErrors(r: Repo): (errs: seq<string>)
    ensures UrlRequired in errs <==> r.url == ""
    ensures BranchRequired in errs <==> r.branch == ""
    ensures CredentialsMismatch in errs <==> (r.user == "") != (r.pass == "")
    ensures errs == [] <==> ValidRepo(r)
  {
    RepoMessagesDistinct();
    (if r.url == "" then [UrlRequired] else [])
    + (if r.branch == "" then [BranchRequired] else [])
    + (if (r.user == "") != (r.pass == "") then [CredentialsMismatch] else [])
  }

  lemma RepoMessagesDistinct()
    ensures UrlRequired != BranchRequired && UrlRequired != CredentialsMismatch && BranchRequired != CredentialsMismatch
  {
    assert |UrlRequired| == 12 && |BranchRequired| == 15 && |CredentialsMismatch| == 51;
  }

  /** Which of the checks, in order, `r` fails. */
  function RepoFailures(r: Repo): (failed: seq<bool>)
    ensures |failed| == |RepoChecks|
  {
    [r.url == "", r.branch == "", (r.user == "") != (r.pass == "")]
  }

  /** The problems are exactly the failed checks' messages, in check order. */
  lemma RepoErrorsInOrder(r: Repo)
    ensures RepoErrors(r) == FailedChecks(RepoChecks, RepoFailures(r))
  {
    var f := RepoFailures(r);
    FailedChecksThree(UrlRequired, BranchRequired, CredentialsMismatch, f[0], f[1], f[2]);
  }

  /** `Repo.Validate`: appends one message per failed check. */
  method Validate(r: Repo) returns (errs: seq<string>)
    ensures errs == RepoErrors(r)
  {
    errs := [];
    if r.url == "" {
      errs := errs + [UrlRequired];
    }
    if r.branch == "" {
      errs := errs + [BranchRequired];
    }
    if (r.user == "") != (r.pass == "") {
      errs := errs + [CredentialsMismatch];
    }
  }

  /** A repo with nothing filled in but a user lacks all three. */
  lemma AllThreeMissing()
    ensures RepoErrors(Repo("", "", "u", "")) == RepoChecks
  {
  }
}
