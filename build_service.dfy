/**
 * Shared vocabulary of the build-service tools: accounts, the remote
 * service seen as a map from (account, path) to parsed documents, packages,
 * revisions, and the failures that abort a run.
 */
module BuildService {

  /** The failures that end a run. Each one is an exception in the tools. */
  datatype Error =
    | MalformedReference(reference: string)  // URL reference without '/': Substring throws
    | UnknownAccount(api: string)            // accounts[api] has no account for this API URL
    | FetchFailed(account: Account, path: string)  // transport, HTTP status or XML parse failure
    | NoRevisions                            // .First() on an empty revision history
    | DuplicatePackage(name: string)         // Dictionary.Add with a key already present

  datatype Option<+T> = None | Some(value: T)

  /** Either a value or the error that aborted the computation. */
  datatype Result<+T> = Ok(value: T) | Err(error: Error)
  {
    predicate IsFailure() { Err? }

    function PropagateFailure<U>(): Result<U>
      requires Err?
    {
      Err(error)
    }

    function Extract(): T
      requires Ok?
    {
      value
    }
  }

  /** A build-service endpoint; its credentials play no part in the logic. */
  datatype Account = Account(api: string)

  /** The configured accounts: a default one and one per API URL. */
  datatype AccountCollection = AccountCollection(defaultAccount: Account, byApi: map<string, Account>)

  /** One `revision` element of a package history: its `rev` number and `srcmd5` checksum. */
  datatype Revision = Revision(rev: int, srcmd5: string)

  /**
   * A fetched XML document, reduced to what the tools read from it: the
   * `name` attributes of its `entry` elements, and its `revision` elements,
   * both in document order.
   */
  datatype Document = Document(entries: seq<string>, revisions: seq<Revision>)

  /** The remote service: the document each (account, path) request returns; a missing pair fails. */
  datatype Remote = Remote(documents: map<(Account, string), Document>)

  /**
   * A package of a snapshot. `srcMd5` is None (null in the tool) until the
   * resolution pass assigns the current checksum.
   */
  datatype Package = Package(project: string, name: string, srcMd5: Option<string>, account: Account)

  /** One blocking GET of `path` under `account`. */
  function Fetch(remote: Remote, account: Account, path: string): Result<Document>
  {
    if (account, path) in remote.documents then Ok(remote.documents[(account, path)])
    else Err(FetchFailed(account, path))
  }

  /** The resource listing the packages of a project. */
  function SourcePath(project: string): string
  {
    "/source/" + project
  }

  /** The resource holding the revision history of a package. */
  function HistoryPath(project: string, name: string): string
  {
    "/source/" + project + "/" + name + "/_history"
  }
}
