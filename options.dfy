/**
  The option records of clone, pull and fetch, each with a Validate operation
  that fills unset fields with their defaults in place and rejects what cannot
  be used: a clone without a URL, a fetch with a malformed refspec.
 */
module Options {
  import opened Wrappers

  /** The remote a clone adds and a pull uses when none is named, as the git command does. */
  const DefaultRemoteName: string := "origin"

  /** The reference name of the checked-out branch, used when no reference is named. */
  const HEAD: string := "HEAD"

  /** The two faults Validate reports. */
  datatype Error = ErrMissingURL | ErrInvalidRefSpec

  /** A refspec in its textual form; its syntax check is passed to FetchOptions.Validate. */
  type RefSpec = string

  /** How a clone is performed. Auth is the credentials type: carried, never inspected. */
  class CloneOptions<Auth> {
    var url: string
    var auth: Option<Auth>
    var remoteName: string
    var referenceName: string
    var singleBranch: bool
    var depth: int

    constructor (url: string, auth: Option<Auth>, remoteName: string, referenceName: string, singleBranch: bool, depth: int)
      ensures this.url == url && this.auth == auth && this.remoteName == remoteName
      ensures this.referenceName == referenceName && this.singleBranch == singleBranch && this.depth == depth
    {
      this.url := url;
      this.auth := auth;
      this.remoteName := remoteName;
      this.referenceName := referenceName;
      this.singleBranch := singleBranch;
      this.depth := depth;
    }

    /** The state a successful Validate leaves: a URL, and both defaulted names set. */
    ghost predicate Complete()
      reads this
    {
      url != "" && remoteName != "" && referenceName != ""
    }

    /**
      Rejects an empty URL before touching anything; otherwise names the remote
      "origin" and the reference HEAD where they are unset and succeeds. A
      successful call leaves the options Complete, and on Complete options
      Validate changes nothing, so a second call is a no-op.
     */
    method Validate() returns (err: Option<Error>)
      modifies this
      ensures url == old(url) && auth == old(auth) && singleBranch == old(singleBranch) && depth == old(depth)
      ensures err == Some(ErrMissingURL) <==> old(url) == ""
      ensures err != Some(ErrMissingURL) ==> err == None
      ensures err.Some? ==> remoteName == old(remoteName) && referenceName == old(referenceName)
      ensures err.None? ==> remoteName == if old(remoteName) == "" then DefaultRemoteName else old(remoteName)
      ensures err.None? ==> referenceName == if old(referenceName) == "" then HEAD else old(referenceName)
      ensures err.None? <==> Complete()
      ensures old(Complete()) ==> err == None && unchanged(this)
    {
      if url == "" {
        return Some(ErrMissingURL);
      }
      if remoteName == "" {
        remoteName := DefaultRemoteName;
      }
      if referenceName == "" {
        referenceName := HEAD;
      }
      return None;
    }
  }

  /** How a pull is performed. */
  class PullOptions {
    var remoteName: string
    var referenceName: string
    var singleBranch: bool
    var depth: int

    constructor (remoteName: string, referenceName: string, singleBranch: bool, depth: int)
      ensures this.remoteName == remoteName && this.referenceName == referenceName
      ensures this.singleBranch == singleBranch && this.depth == depth
    {
      this.remoteName := remoteName;
      this.referenceName := referenceName;
      this.singleBranch := singleBranch;
      this.depth := depth;
    }

    /** The state Validate leaves: both defaulted names set. */
    ghost predicate Complete()
      reads this
    {
      remoteName != "" && referenceName != ""
    }

    /**
      Names the remote "origin" and the reference HEAD where they are unset;
      never fails. Validate leaves the options Complete and changes nothing on
      Complete options, so a second call is a no-op.
     */
    method Validate() returns (err: Option<Error>)
      modifies this
      ensures err == None
      ensures singleBranch == old(singleBranch) && depth == old(depth)
      ensures remoteName == if old(remoteName) == "" then DefaultRemoteName else old(remoteName)
      ensures referenceName == if old(referenceName) == "" then HEAD else old(referenceName)
      ensures Complete()
      ensures old(Complete()) ==> unchanged(this)
    {
      if remoteName == "" {
        remoteName := DefaultRemoteName;
      }
      if referenceName == "" {
        referenceName := HEAD;
      }
      return None;
    }
  }

  /** How a fetch from a remote is performed. */
  class FetchOptions {
    var refSpecs: seq<RefSpec>
    var depth: int

    constructor (refSpecs: seq<RefSpec>, depth: int)
      ensures this.refSpecs == refSpecs && this.depth == depth
    {
      this.refSpecs := refSpecs;
      this.depth := depth;
    }

    /**
      Checks the refspecs in order and stops at the first one isValid rejects:
      ErrInvalidRefSpec exactly when some refspec is invalid, nil otherwise.
      Nothing is modified.
     */
    method Validate(isValid: RefSpec -> bool) returns (err: Option<Error>)
      ensures err == None <==> forall i :: 0 <= i < |refSpecs| ==> isValid(refSpecs[i])
      ensures err != None ==> err == Some(ErrInvalidRefSpec)
    {
      for i := 0 to |refSpecs|
        invariant forall k :: 0 <= k < i ==> isValid(refSpecs[k])
      {
        if !isValid(refSpecs[i]) {
          return Some(ErrInvalidRefSpec);
        }
      }
      return None;
    }
  }
}
