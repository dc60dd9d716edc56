/**
 * Document directives: checking that the Document directives of a ledger
 * name existing files, finding dated files under document root directories
 * and turning them into Document directives, and merging the found directives
 * into the ledger's sorted directive list.
 *
 * The file system is a parameter (Env): the set of existing paths, the account
 * walk of a directory, and the resolution of a relative root directory.
 */
module Documents {
  import opened Wrappers
  import opened Data
  import opened DatedNames
  import opened EntryLists

  /** One directory visited by the account walk: its path, the account name
      spelled by its path below the root, and the names of its files in the
      order the walk gives them. */
  datatype WalkStep = WalkStep(root: Path, accountName: Account, files: seq<string>)

  /** What the document logic asks of the operating system. */
  datatype Env = Env(
    existing: set<Path>,            // the paths `path.exists` accepts
    walk: Path -> seq<WalkStep>,    // `account.walk` of a root directory
    resolve: (Path, Path) -> Path)  // the absolute, normalised path of a relative
                                    // directory, given the ledger file name

  /** The messages of document errors, with the values they embed. */
  datatype Message =
    | MissingFile(filename: Path)                       // File does not exist
    | MissingRoot(directory: Path)                      // Document root does not exist
    | ChildAccount(document: string, account: Account)  // Document found in child account
    | ParentAccount(document: string, account: Account) // Document found in parent account

  /** `DocumentError(source, message, entry)`. */
  datatype DocumentError = DocumentError(source: Source, message: Message, entry: Option<Directive>)

  /** The pair of lists `find_documents` returns. */
  datatype Found = Found(entries: seq<Directive>, errors: seq<DocumentError>)

  /** A normal return, or the ValueError that `datetime.date` raises when a
      dated file name names no calendar date; it ends the whole call. */
  datatype Outcome<T> = Returned(value: T) | DateValueError(filename: string)

  // ---------------------------------------------------------------------------
  // verify_document_entries

  predicate IsMissingDocument(existing: set<Path>, d: Directive)
  {
    d.Document? && d.filename !in existing
  }

  function MissingFileError(d: Directive): DocumentError
    requires d.Document?
  {
    DocumentError(d.source, MissingFile(d.filename), Some(d))
  }

  /** One error per Document directive whose file does not exist, in order. */
  function MissingFileErrors(existing: set<Path>, entries: seq<Directive>): seq<DocumentError>
  {
    if entries == [] then []
    else
      var last := entries[|entries| - 1];
      MissingFileErrors(existing, entries[..|entries| - 1])
        + (if IsMissingDocument(existing, last) then [MissingFileError(last)] else [])
  }

  /** The positions of the Document directives whose file does not exist, in increasing order. */
  function MissingIndices(existing: set<Path>, entries: seq<Directive>): (idx: seq<nat>)
    ensures forall k :: 0 <= k < |idx| ==> idx[k] < |entries| && IsMissingDocument(existing, entries[idx[k]])
    ensures forall k, l :: 0 <= k < l < |idx| ==> idx[k] < idx[l]
    ensures forall i :: 0 <= i < |entries| && IsMissingDocument(existing, entries[i]) ==> i in idx
  {
    if entries == [] then []
    else
      var n := |entries| - 1;
      var prefix := entries[..n];
      var idx := MissingIndices(existing, prefix) + (if IsMissingDocument(existing, entries[n]) then [n] else []);
      assert forall i :: 0 <= i < n ==> entries[i] == prefix[i];
      idx
  }

  /** The errors are, in input order, exactly one per Document directive whose
      file does not exist; each carries that directive and its source. */
  lemma MissingFileErrorsExact(existing: set<Path>, entries: seq<Directive>)
    ensures var errors := MissingFileErrors(existing, entries);
            var idx := MissingIndices(existing, entries);
            && |errors| == |idx|
            && forall k :: 0 <= k < |idx| ==>
                 && errors[k] == MissingFileError(entries[idx[k]])
                 && errors[k].source == entries[idx[k]].source
                 && errors[k].entry == Some(entries[idx[k]])
  {
    MissingFileErrorsCount(existing, entries);
    forall k | 0 <= k < |MissingIndices(existing, entries)|
      ensures MissingFileErrors(existing, entries)[k] == MissingFileError(entries[MissingIndices(existing, entries)[k]])
    {
      MissingFileErrorAt(existing, entries, k);
    }
  }

  lemma {:induction false} MissingFileErrorsCount(existing: set<Path>, entries: seq<Directive>)
    ensures |MissingFileErrors(existing, entries)| == |MissingIndices(existing, entries)|
  {
    if entries != [] {
      MissingFileErrorsCount(existing, entries[..|entries| - 1]);
    }
  }

  lemma {:induction false} MissingFileErrorAt(existing: set<Path>, entries: seq<Directive>, k: nat)
    requires k < |MissingIndices(existing, entries)|
    ensures k < |MissingFileErrors(existing, entries)|
    ensures MissingFileErrors(existing, entries)[k] == MissingFileError(entries[MissingIndices(existing, entries)[k]])
  {
    MissingFileErrorsCount(existing, entries);
    var n := |entries| - 1;
    var prefix := entries[..n];
    MissingFileErrorsCount(existing, prefix);
    if k < |MissingIndices(existing, prefix)| {
      MissingFileErrorAt(existing, prefix, k);
      assert entries[MissingIndices(existing, prefix)[k]] == prefix[MissingIndices(existing, prefix)[k]];
    }
  }

  /** `verify_document_entries`: the entries come back unchanged, with an error
      for each Document directive whose file does not exist. */
  method VerifyDocumentEntries(entries: seq<Directive>, existing: set<Path>)
    returns (checked: seq<Directive>, errors: seq<DocumentError>)
    ensures checked == entries
    ensures errors == MissingFileErrors(existing, entries)
  {
    errors := [];
    var i := 0;
    while i < |entries|
      invariant 0 <= i <= |entries|
      invariant errors == MissingFileErrors(existing, entries[..i])
    {
      var entry := entries[i];
      assert entries[..i + 1][..i] == entries[..i];
      if entry.Document? {
        if entry.filename !in existing {
          errors := errors + [DocumentError(entry.source, MissingFile(entry.filename), Some(entry))];
        }
      }
      i := i + 1;
    }
    assert entries[..i] == entries;
    checked := entries;
  }

  // ---------------------------------------------------------------------------
  // find_documents: paths, files of a walk, and the decision for one file

  /** `path.isabs` on POSIX. */
  predicate IsAbsolute(p: Path): (r: bool)
    ensures r <==> "/" <= p
  {
    |p| > 0 && p[0] == '/'
  }

  /** `path.join(root, name)` on POSIX: an absolute name replaces the root,
      otherwise a '/' is put between the two unless the root is empty or
      already ends with one. */
  function Join(root: Path, name: string): (p: Path)
    ensures |p| >= |name| && p[|p| - |name|..] == name
    ensures IsAbsolute(name) ==> p == name
    ensures !IsAbsolute(name) ==> root <= p
    ensures !IsAbsolute(name) ==> p == root + name || p == root + "/" + name
    ensures !IsAbsolute(name) ==> (p == root + name <==> root == [] || root[|root| - 1] == '/')
  {
    if IsAbsolute(name) then name
    else if root == [] || root[|root| - 1] == '/' then root + name
    else root + "/" + name
  }

  /** The root directory that is searched: an absolute directory as given, a
      relative one resolved against the directory of the ledger file. */
  function ResolveRoot(env: Env, directory: Path, inputFilename: Path): Path
  {
    if IsAbsolute(directory) then directory else env.resolve(inputFilename, directory)
  }

  /** A file seen by the walk, with the directory and account it was found in. */
  datatype Candidate = Candidate(root: Path, accountName: Account, filename: string)

  function StepCandidates(step: WalkStep): (cs: seq<Candidate>)
    ensures |cs| == |step.files|
    ensures forall k :: 0 <= k < |cs| ==> cs[k] == Candidate(step.root, step.accountName, step.files[k])
  {
    seq(|step.files|, k requires 0 <= k < |step.files| => Candidate(step.root, step.accountName, step.files[k]))
  }

  /** The files of a walk: directory after directory in walk order, and within
      a directory in file order. */
  function Candidates(walk: seq<WalkStep>): seq<Candidate>
  {
    if walk == [] then [] else Candidates(walk[..|walk| - 1]) + StepCandidates(walk[|walk| - 1])
  }

  predicate IsDated(c: Candidate)
  {
    MatchDated(c.filename).Some?
  }

  predicate HasValidDate(c: Candidate)
  {
    IsDated(c) && IsValidDate(DateOf(MatchDated(c.filename).value))
  }

  /** An account filter restricts only when it is given and non-empty:
      `None` and the empty set are both falsy. */
  predicate Restricting(accountsOnly: Option<set<Account>>)
  {
    accountsOnly.Some? && accountsOnly.value != {}
  }

  predicate Admits(accountsOnly: Option<set<Account>>, account: Account)
  {
    !Restricting(accountsOnly) || account in accountsOnly.value
  }

  /** The Document directive made for a dated file. */
  function DocumentFor(inputFilename: Path, c: Candidate): (d: Directive)
    requires IsDated(c)
    ensures d.Document? && d.source == Source(inputFilename, 0) && d.account == c.accountName
    ensures d.filename == Join(c.root, c.filename)
    ensures d.date == DateOf(MatchDated(c.filename).value)
  {
    Document(Source(inputFilename, 0), DateOf(MatchDated(c.filename).value), c.accountName, Join(c.root, c.filename))
  }

  /** The strict-mode report for a file in an account outside the filter: a
      child account when some filter account is a prefix of its account, else a
      parent account when its account is a prefix of some filter account. The
      prefix tests are plain string prefixes. */
  function ScopeError(inputFilename: Path, filter: set<Account>, c: Candidate): (e: Option<DocumentError>)
    ensures e.Some? ==> e.value.source == Source(inputFilename, 0) && e.value.entry == None
    ensures e.Some? && e.value.message.ChildAccount? <==> exists a :: a in filter && a <= c.accountName
    ensures e.Some? && e.value.message.ParentAccount? <==>
              (!exists a :: a in filter && a <= c.accountName) && (exists a :: a in filter && c.accountName <= a)
    ensures e.Some? ==> e.value.message in {ChildAccount(c.filename, c.accountName), ParentAccount(c.filename, c.accountName)}
  {
    if exists a :: a in filter && a <= c.accountName then
      Some(DocumentError(Source(inputFilename, 0), ChildAccount(c.filename, c.accountName), None))
    else if exists a :: a in filter && c.accountName <= a then
      Some(DocumentError(Source(inputFilename, 0), ParentAccount(c.filename, c.accountName), None))
    else
      None
  }

  /** What the loop body of `find_documents` does with one file. */
  datatype Decision = Undated | Skipped | Emit(entry: Directive) | Report(error: DocumentError) | InvalidDate

  function Decide(inputFilename: Path, accountsOnly: Option<set<Account>>, strict: bool, c: Candidate): (d: Decision)
    ensures d.Undated? <==> !IsDated(c)
    ensures d.Emit? <==> IsDated(c) && Admits(accountsOnly, c.accountName) && HasValidDate(c)
    ensures d.Emit? ==> d.entry == DocumentFor(inputFilename, c)
    ensures d.InvalidDate? <==> IsDated(c) && Admits(accountsOnly, c.accountName) && !HasValidDate(c)
    ensures d.Report? ==> strict && IsDated(c) && !Admits(accountsOnly, c.accountName)
  {
    if !IsDated(c) then Undated
    else if !Admits(accountsOnly, c.accountName) then
      if strict && ScopeError(inputFilename, accountsOnly.value, c).Some? then
        Report(ScopeError(inputFilename, accountsOnly.value, c).value)
      else
        Skipped
    else if HasValidDate(c) then Emit(DocumentFor(inputFilename, c))
    else InvalidDate
  }

  /** A file in an account outside a non-empty filter never becomes a directive,
      and yields at most one error, only in strict mode. */
  lemma NonMemberDecision(inputFilename: Path, accountsOnly: Option<set<Account>>, strict: bool, c: Candidate)
    requires IsDated(c) && !Admits(accountsOnly, c.accountName)
    ensures Decide(inputFilename, accountsOnly, strict, c) ==
              if strict && ScopeError(inputFilename, accountsOnly.value, c).Some? then
                Report(ScopeError(inputFilename, accountsOnly.value, c).value)
              else Skipped
    ensures !strict ==> Decide(inputFilename, accountsOnly, strict, c) == Skipped
  {
  }

  /** In strict mode, a dated file outside the filter whose account has a
      filter account as prefix is reported as in a child account. */
  lemma ChildAccountReported(inputFilename: Path, filter: set<Account>, c: Candidate, a: Account)
    requires IsDated(c) && c.accountName !in filter
    requires a in filter && a <= c.accountName
    ensures Decide(inputFilename, Some(filter), true, c)
         == Report(DocumentError(Source(inputFilename, 0), ChildAccount(c.filename, c.accountName), None))
  {
  }

  /** In strict mode, a dated file outside the filter whose account has no
      filter account as prefix but is a prefix of one is reported as in a
      parent account. */
  lemma ParentAccountReported(inputFilename: Path, filter: set<Account>, c: Candidate, a: Account)
    requires IsDated(c) && c.accountName !in filter
    requires forall b :: b in filter ==> !(b <= c.accountName)
    requires a in filter && c.accountName <= a
    ensures Decide(inputFilename, Some(filter), true, c)
         == Report(DocumentError(Source(inputFilename, 0), ParentAccount(c.filename, c.accountName), None))
  {
  }

  /** A dated file outside a non-empty filter whose account is neither a child
      nor a parent of a filter account is skipped silently. */
  lemma UnrelatedAccountSkipped(inputFilename: Path, filter: set<Account>, strict: bool, c: Candidate)
    requires IsDated(c) && filter != {} && c.accountName !in filter
    requires forall b :: b in filter ==> !(b <= c.accountName) && !(c.accountName <= b)
    ensures Decide(inputFilename, Some(filter), strict, c) == Skipped
  {
  }

  /** The file name of the scope examples matches the date pattern. */
  lemma ExampleNameDated()
    ensures MatchDated("2020-01-01.pdf").Some?
  {
    assert AllDigits("2020-01-01.pdf"[0..4]) && AllDigits("2020-01-01.pdf"[5..7]) && AllDigits("2020-01-01.pdf"[8..10]);
  }

  /** With the filter {Assets:Bank:Checking}, a file under
      Assets:Bank:Checking:Sub is reported as in a child account. */
  lemma ChildScopeExample()
    ensures var c := Candidate("/docs/Assets/Bank/Checking/Sub", "Assets:Bank:Checking:Sub", "2020-01-01.pdf");
            Decide("ledger", Some({"Assets:Bank:Checking"}), true, c)
              == Report(DocumentError(Source("ledger", 0), ChildAccount(c.filename, c.accountName), None))
  {
    var c := Candidate("/docs/Assets/Bank/Checking/Sub", "Assets:Bank:Checking:Sub", "2020-01-01.pdf");
    ExampleNameDated();
    assert |"Assets:Bank:Checking"| < |c.accountName|;
    ChildAccountReported("ledger", {"Assets:Bank:Checking"}, c, "Assets:Bank:Checking");
  }

  /** With the filter {Assets:Bank:Checking}, a file under Assets is reported
      as in a parent account. */
  lemma ParentScopeExample()
    ensures var c := Candidate("/docs/Assets", "Assets", "2020-01-01.pdf");
            Decide("ledger", Some({"Assets:Bank:Checking"}), true, c)
              == Report(DocumentError(Source("ledger", 0), ParentAccount(c.filename, c.accountName), None))
  {
    var c := Candidate("/docs/Assets", "Assets", "2020-01-01.pdf");
    ExampleNameDated();
    assert |"Assets:Bank:Checking"| > |c.accountName|;
    assert "Assets" <= "Assets:Bank:Checking";
    ParentAccountReported("ledger", {"Assets:Bank:Checking"}, c, "Assets:Bank:Checking");
  }

  /** The prefix test is a plain string prefix: with the filter {Assets:Bank},
      a file under Assets:BankX is reported as in a child account. */
  lemma StringPrefixScopeExample()
    ensures var c := Candidate("/docs/Assets/BankX", "Assets:BankX", "2020-01-01.pdf");
            Decide("ledger", Some({"Assets:Bank"}), true, c)
              == Report(DocumentError(Source("ledger", 0), ChildAccount(c.filename, c.accountName), None))
  {
    var c := Candidate("/docs/Assets/BankX", "Assets:BankX", "2020-01-01.pdf");
    ExampleNameDated();
    assert |"Assets:Bank"| < |c.accountName|;
    assert "Assets:Bank" <= "Assets:BankX";
    ChildAccountReported("ledger", {"Assets:Bank"}, c, "Assets:Bank");
  }

  /** An account that is neither a child nor a parent of a filter account is
      skipped silently, in strict mode too. */
  lemma UnrelatedScopeExample()
    ensures var c := Candidate("/docs/Income", "Income", "2020-01-01.pdf");
            Decide("ledger", Some({"Assets:Bank"}), true, c) == Skipped
  {
    var c := Candidate("/docs/Income", "Income", "2020-01-01.pdf");
    ExampleNameDated();
    assert "Assets:Bank"[0] != "Income"[0];
    UnrelatedAccountSkipped("ledger", {"Assets:Bank"}, true, c);
  }

  // ---------------------------------------------------------------------------
  // find_documents: the whole walk

  /** The result of the loops of `find_documents` over a sequence of files. */
  function Scan(inputFilename: Path, accountsOnly: Option<set<Account>>, strict: bool, cs: seq<Candidate>): Outcome<Found>
  {
    if cs == [] then Returned(Found([], []))
    else
      var c := cs[|cs| - 1];
      Step(Scan(inputFilename, accountsOnly, strict, cs[..|cs| - 1]), Decide(inputFilename, accountsOnly, strict, c), c.filename)
  }

  /** One more file: a raised error stays raised, otherwise the decision for
      the file appends a directive, appends an error, raises, or does nothing. */
  function Step(prev: Outcome<Found>, decision: Decision, filename: string): Outcome<Found>
  {
    match prev
    case DateValueError(name) => DateValueError(name)
    case Returned(f) =>
      match decision
      case Undated => Returned(f)
      case Skipped => Returned(f)
      case Emit(d) => Returned(Found(f.entries + [d], f.errors))
      case Report(e) => Returned(Found(f.entries, f.errors + [e]))
      case InvalidDate => DateValueError(filename)
  }

  lemma ScanAppend(inputFilename: Path, accountsOnly: Option<set<Account>>, strict: bool, cs: seq<Candidate>, c: Candidate)
    ensures Scan(inputFilename, accountsOnly, strict, cs + [c])
         == Step(Scan(inputFilename, accountsOnly, strict, cs), Decide(inputFilename, accountsOnly, strict, c), c.filename)
  {
    assert (cs + [c])[..|cs|] == cs;
  }

  /** `find_documents(directory, input_filename, accounts_only, strict)`. */
  function Find(directory: Path, inputFilename: Path, accountsOnly: Option<set<Account>>, strict: bool, env: Env): Outcome<Found>
  {
    var root := ResolveRoot(env, directory, inputFilename);
    if root !in env.existing then
      Returned(Found([], [DocumentError(Source(inputFilename, 0), MissingRoot(root), None)]))
    else
      Scan(inputFilename, accountsOnly, strict, Candidates(env.walk(root)))
  }

  /** `find_documents`, step by step as the source runs it. */
  method FindDocuments(directory: Path, inputFilename: Path, accountsOnly: Option<set<Account>>, strict: bool, env: Env)
    returns (r: Outcome<Found>)
    ensures r == Find(directory, inputFilename, accountsOnly, strict, env)
  {
    var root := directory;
    if !IsAbsolute(directory) {
      root := env.resolve(inputFilename, directory);
    }
    if root !in env.existing {
      var source := Source(inputFilename, 0);
      return Returned(Found([], [DocumentError(source, MissingRoot(root), None)]));
    }
    r := FindInWalk(inputFilename, accountsOnly, strict, env.walk(root));
  }

  /** The outer loop of `find_documents`: the directories of the walk, in order. */
  method FindInWalk(inputFilename: Path, accountsOnly: Option<set<Account>>, strict: bool, walk: seq<WalkStep>)
    returns (r: Outcome<Found>)
    ensures r == Scan(inputFilename, accountsOnly, strict, Candidates(walk))
  {
    var entries: seq<Directive> := [];
    var errors: seq<DocumentError> := [];
    assert walk[..0] == [];
    var i := 0;
    while i < |walk|
      invariant 0 <= i <= |walk|
      invariant Scan(inputFilename, accountsOnly, strict, Candidates(walk[..i])) == Returned(Found(entries, errors))
    {
      r := FindInDirectory(inputFilename, accountsOnly, strict, walk[i], Candidates(walk[..i]), entries, errors);
      WalkNext(inputFilename, accountsOnly, strict, walk, i, r);
      if r.DateValueError? {
        return;
      }
      entries, errors := r.value.entries, r.value.errors;
      assert r == Returned(Found(entries, errors));
      i := i + 1;
    }
    assert walk[..i] == walk;
    r := Returned(Found(entries, errors));
  }

  /** One more directory of the walk: the scan of the files so far extends by
      the files of that directory, and a date error is final. */
  lemma WalkNext(inputFilename: Path, accountsOnly: Option<set<Account>>, strict: bool,
                 walk: seq<WalkStep>, i: nat, next: Outcome<Found>)
    requires i < |walk|
    requires next == Scan(inputFilename, accountsOnly, strict, Candidates(walk[..i]) + StepCandidates(walk[i]))
    ensures Scan(inputFilename, accountsOnly, strict, Candidates(walk[..i + 1])) == next
    ensures next.DateValueError? ==> Scan(inputFilename, accountsOnly, strict, Candidates(walk)) == next
  {
    assert walk[..i + 1][..i] == walk[..i];
    if next.DateValueError? {
      CandidatesPrefix(walk, i);
      ScanFailurePersists(inputFilename, accountsOnly, strict, Candidates(walk[..i + 1]), Candidates(walk));
    }
  }

  /** The inner loop of `find_documents`: the files of one directory of the
      walk, after the files `before` have given `entries` and `errors`. */
  method FindInDirectory(inputFilename: Path, accountsOnly: Option<set<Account>>, strict: bool, step: WalkStep,
                         ghost before: seq<Candidate>, entries0: seq<Directive>, errors0: seq<DocumentError>)
    returns (r: Outcome<Found>)
    requires Scan(inputFilename, accountsOnly, strict, before) == Returned(Found(entries0, errors0))
    ensures r == Scan(inputFilename, accountsOnly, strict, before + StepCandidates(step))
  {
    ghost var cs := StepCandidates(step);
    assert before + cs[..0] == before;
    r := Returned(Found(entries0, errors0));
    var j := 0;
    while j < |step.files|
      invariant 0 <= j <= |step.files|
      invariant r.Returned?
      invariant Scan(inputFilename, accountsOnly, strict, before + cs[..j]) == r
    {
      ghost var prev := r;
      r := FindInFile(inputFilename, accountsOnly, strict, step.root, step.accountName, step.files[j], r.value);
      ScanNext(inputFilename, accountsOnly, strict, before, cs, j, prev, r);
      if r.DateValueError? {
        return;
      }
      j := j + 1;
    }
    assert cs[..j] == cs;
  }

  /** One more file of a directory: the scan of the files so far extends by
      the decision for that file, and a date error is final. */
  lemma ScanNext(inputFilename: Path, accountsOnly: Option<set<Account>>, strict: bool,
                 before: seq<Candidate>, cs: seq<Candidate>, j: nat, prev: Outcome<Found>, next: Outcome<Found>)
    requires j < |cs|
    requires Scan(inputFilename, accountsOnly, strict, before + cs[..j]) == prev
    requires next == Step(prev, Decide(inputFilename, accountsOnly, strict, cs[j]), cs[j].filename)
    ensures Scan(inputFilename, accountsOnly, strict, before + cs[..j + 1]) == next
    ensures next.DateValueError? ==> Scan(inputFilename, accountsOnly, strict, before + cs) == next
  {
    assert before + cs[..j + 1] == (before + cs[..j]) + [cs[j]];
    ScanAppend(inputFilename, accountsOnly, strict, before + cs[..j], cs[j]);
    if next.DateValueError? {
      ScanFailurePersists(inputFilename, accountsOnly, strict, before + cs[..j + 1], before + cs);
    }
  }

  /** The body of the inner loop of `find_documents`: one file of the walk. */
  method FindInFile(inputFilename: Path, accountsOnly: Option<set<Account>>, strict: bool,
                    root: Path, accountName: Account, filename: string, f: Found)
    returns (r: Outcome<Found>)
    ensures r == Step(Returned(f), Decide(inputFilename, accountsOnly, strict, Candidate(root, accountName, filename)), filename)
  {
    ghost var c := Candidate(root, accountName, filename);
    var entries, errors := f.entries, f.errors;
    var mo := MatchDated(filename);
    if mo.Some? {
      if accountsOnly.Some? && accountsOnly.value != {} && accountName !in accountsOnly.value {
        if strict {
          if exists account :: account in accountsOnly.value && account <= accountName {
            errors := errors + [DocumentError(Source(inputFilename, 0), ChildAccount(filename, accountName), None)];
          } else if exists account :: account in accountsOnly.value && accountName <= account {
            errors := errors + [DocumentError(Source(inputFilename, 0), ParentAccount(filename, accountName), None)];
          }
        }
      } else {
        var source := Source(inputFilename, 0);
        var date := DateOf(mo.value);
        if !IsValidDate(date) {
          return DateValueError(filename);
        }
        var entry := Document(source, date, accountName, Join(root, filename));
        entries := entries + [entry];
      }
    }
    r := Returned(Found(entries, errors));
  }

  /** The files of the first `k + 1` directories come first among the files of the walk. */
  lemma {:induction false} CandidatesPrefix(walk: seq<WalkStep>, k: nat)
    requires k < |walk|
    ensures Candidates(walk[..k + 1]) <= Candidates(walk)
  {
    if k + 1 < |walk| {
      CandidatesPrefix(walk[..|walk| - 1], k);
      assert walk[..|walk| - 1][..k + 1] == walk[..k + 1];
    } else {
      assert walk[..k + 1] == walk;
    }
  }

  /** Once a date error is raised, no later file changes the outcome. */
  lemma {:induction false} ScanFailurePersists(inputFilename: Path, accountsOnly: Option<set<Account>>, strict: bool,
                                               cs: seq<Candidate>, more: seq<Candidate>)
    requires cs <= more
    requires Scan(inputFilename, accountsOnly, strict, cs).DateValueError?
    ensures Scan(inputFilename, accountsOnly, strict, more) == Scan(inputFilename, accountsOnly, strict, cs)
    decreases |more|
  {
    if |more| > |cs| {
      ScanFailurePersists(inputFilename, accountsOnly, strict, cs, more[..|more| - 1]);
    } else {
      assert more == cs;
    }
  }

  // ---------------------------------------------------------------------------
  // find_documents: what it finds, stated without the loop

  /** The dated files of `cs` whose account the filter admits, in order. */
  function Admitted(accountsOnly: Option<set<Account>>, cs: seq<Candidate>): (r: seq<Candidate>)
    ensures forall k :: 0 <= k < |r| ==> IsDated(r[k]) && Admits(accountsOnly, r[k].accountName)
  {
    if cs == [] then []
    else
      var c := cs[|cs| - 1];
      Admitted(accountsOnly, cs[..|cs| - 1]) + (if IsDated(c) && Admits(accountsOnly, c.accountName) then [c] else [])
  }

  /** Every dated file the filter admits is among the admitted files. */
  lemma {:induction false} AdmittedMember(accountsOnly: Option<set<Account>>, cs: seq<Candidate>, c: Candidate)
    requires c in cs && IsDated(c) && Admits(accountsOnly, c.accountName)
    ensures c in Admitted(accountsOnly, cs)
  {
    var n := |cs| - 1;
    if cs[n] != c {
      assert cs == cs[..n] + [cs[n]];
      AdmittedMember(accountsOnly, cs[..n], c);
    }
  }

  /** The strict-mode errors for the dated files of `cs` outside the filter, in order. */
  function ScopeErrors(inputFilename: Path, accountsOnly: Option<set<Account>>, cs: seq<Candidate>): seq<DocumentError>
  {
    if cs == [] then []
    else
      var c := cs[|cs| - 1];
      ScopeErrors(inputFilename, accountsOnly, cs[..|cs| - 1])
        + (if IsDated(c) && !Admits(accountsOnly, c.accountName) && ScopeError(inputFilename, accountsOnly.value, c).Some?
           then [ScopeError(inputFilename, accountsOnly.value, c).value] else [])
  }

  /** The errors `find_documents` collects from the files: the scope errors in strict mode, none otherwise. */
  function FileErrors(inputFilename: Path, accountsOnly: Option<set<Account>>, strict: bool, cs: seq<Candidate>): seq<DocumentError>
  {
    if strict then ScopeErrors(inputFilename, accountsOnly, cs) else []
  }

  predicate AllDated(cs: seq<Candidate>)
  {
    forall k :: 0 <= k < |cs| ==> IsDated(cs[k])
  }

  predicate AllValidDates(cs: seq<Candidate>)
  {
    forall k :: 0 <= k < |cs| ==> HasValidDate(cs[k])
  }

  /** One Document directive per file, in the order of the files. */
  function DocumentsFor(inputFilename: Path, cs: seq<Candidate>): (ds: seq<Directive>)
    requires AllDated(cs)
    ensures |ds| == |cs|
  {
    if cs == [] then [] else DocumentsFor(inputFilename, cs[..|cs| - 1]) + [DocumentFor(inputFilename, cs[|cs| - 1])]
  }

  lemma {:induction false} DocumentsForAt(inputFilename: Path, cs: seq<Candidate>, k: nat)
    requires AllDated(cs) && k < |cs|
    ensures DocumentsFor(inputFilename, cs)[k] == DocumentFor(inputFilename, cs[k])
  {
    if k < |cs| - 1 {
      DocumentsForAt(inputFilename, cs[..|cs| - 1], k);
    }
  }

  /** The position of the first file whose date is invalid, if any. */
  function FirstInvalid(cs: seq<Candidate>): (r: Option<nat>)
    ensures r.Some? ==> r.value < |cs|
  {
    if cs == [] then None
    else
      var n := |cs| - 1;
      var p := FirstInvalid(cs[..n]);
      if p.Some? then p
      else if HasValidDate(cs[n]) then None
      else Some(n)
  }

  /** `FirstInvalid` finds the first file whose date is invalid, and finds none
      exactly when every date is valid. */
  lemma FirstInvalidSpec(cs: seq<Candidate>)
    ensures FirstInvalid(cs).Some? ==>
              && !HasValidDate(cs[FirstInvalid(cs).value])
              && AllValidDates(cs[..FirstInvalid(cs).value])
    ensures FirstInvalid(cs).None? <==> AllValidDates(cs)
  {
    if FirstInvalid(cs).Some? {
      FirstInvalidIsFirst(cs);
    } else {
      NoFirstInvalid(cs);
    }
  }

  lemma {:induction false} FirstInvalidIsFirst(cs: seq<Candidate>)
    requires FirstInvalid(cs).Some?
    ensures !HasValidDate(cs[FirstInvalid(cs).value]) && AllValidDates(cs[..FirstInvalid(cs).value])
    ensures !AllValidDates(cs)
  {
    var n := |cs| - 1;
    var p := FirstInvalid(cs[..n]);
    if p.Some? {
      FirstInvalidIsFirst(cs[..n]);
      assert cs[..n][..p.value] == cs[..p.value];
      assert cs[..n][p.value] == cs[p.value];
    } else {
      NoFirstInvalid(cs[..n]);
      assert cs[..n] == cs[..FirstInvalid(cs).value];
    }
  }

  lemma {:induction false} NoFirstInvalid(cs: seq<Candidate>)
    requires FirstInvalid(cs).None?
    ensures AllValidDates(cs)
  {
    if cs != [] {
      var n := |cs| - 1;
      NoFirstInvalid(cs[..n]);
      assert forall k :: 0 <= k < n ==> cs[k] == cs[..n][k];
    }
  }

  lemma FirstInvalidAppend(cs: seq<Candidate>, c: Candidate)
    ensures FirstInvalid(cs + [c])
         == if FirstInvalid(cs).Some? then FirstInvalid(cs) else if HasValidDate(c) then None else Some(|cs|)
  {
    assert (cs + [c])[..|cs|] == cs;
  }

  /** What a scan that returns normally has produced. */
  ghost predicate ReturnsAsSummarized(inputFilename: Path, accountsOnly: Option<set<Account>>, strict: bool, cs: seq<Candidate>)
  {
    Scan(inputFilename, accountsOnly, strict, cs).Returned? ==>
      && FirstInvalid(Admitted(accountsOnly, cs)).None?
      && Scan(inputFilename, accountsOnly, strict, cs).value
           == Found(DocumentsFor(inputFilename, Admitted(accountsOnly, cs)), FileErrors(inputFilename, accountsOnly, strict, cs))
  }

  /** Which file a scan that raises has raised for. */
  ghost predicate RaisesAsSummarized(inputFilename: Path, accountsOnly: Option<set<Account>>, strict: bool, cs: seq<Candidate>)
  {
    Scan(inputFilename, accountsOnly, strict, cs).DateValueError? ==>
      && FirstInvalid(Admitted(accountsOnly, cs)).Some?
      && Admitted(accountsOnly, cs)[FirstInvalid(Admitted(accountsOnly, cs)).value].filename
           == Scan(inputFilename, accountsOnly, strict, cs).filename
  }

  /** What the loops compute, without the loops: a date error names the first
      admitted dated file whose date is invalid; otherwise the directives are
      those of the admitted dated files in walk order, and the errors are the
      strict-mode scope errors in walk order, or none. */
  lemma ScanSummary(inputFilename: Path, accountsOnly: Option<set<Account>>, strict: bool, cs: seq<Candidate>)
    ensures Scan(inputFilename, accountsOnly, strict, cs).Returned? ==>
              && AllValidDates(Admitted(accountsOnly, cs))
              && Scan(inputFilename, accountsOnly, strict, cs).value.entries == DocumentsFor(inputFilename, Admitted(accountsOnly, cs))
              && Scan(inputFilename, accountsOnly, strict, cs).value.errors == (if strict then ScopeErrors(inputFilename, accountsOnly, cs) else [])
    ensures Scan(inputFilename, accountsOnly, strict, cs).DateValueError? ==>
              && FirstInvalid(Admitted(accountsOnly, cs)).Some?
              && Admitted(accountsOnly, cs)[FirstInvalid(Admitted(accountsOnly, cs)).value].filename
                   == Scan(inputFilename, accountsOnly, strict, cs).filename
  {
    Summary(inputFilename, accountsOnly, strict, cs);
    FirstInvalidSpec(Admitted(accountsOnly, cs));
  }

  lemma {:induction false} Summary(inputFilename: Path, accountsOnly: Option<set<Account>>, strict: bool, cs: seq<Candidate>)
    ensures ReturnsAsSummarized(inputFilename, accountsOnly, strict, cs)
    ensures RaisesAsSummarized(inputFilename, accountsOnly, strict, cs)
  {
    if cs != [] {
      Summary(inputFilename, accountsOnly, strict, cs[..|cs| - 1]);
      SummaryStep(inputFilename, accountsOnly, strict, cs);
    }
  }

  lemma SummaryStep(inputFilename: Path, accountsOnly: Option<set<Account>>, strict: bool, cs: seq<Candidate>)
    requires cs != []
    requires ReturnsAsSummarized(inputFilename, accountsOnly, strict, cs[..|cs| - 1])
    requires RaisesAsSummarized(inputFilename, accountsOnly, strict, cs[..|cs| - 1])
    ensures ReturnsAsSummarized(inputFilename, accountsOnly, strict, cs)
    ensures RaisesAsSummarized(inputFilename, accountsOnly, strict, cs)
  {
    var n := |cs| - 1;
    assert cs == cs[..n] + [cs[n]];
    if Scan(inputFilename, accountsOnly, strict, cs[..n]).DateValueError? {
      SummaryAfterRaise(inputFilename, accountsOnly, strict, cs[..n], cs[n]);
    } else {
      SummaryAfterReturn(inputFilename, accountsOnly, strict, cs[..n], cs[n]);
    }
  }

  lemma SummaryAfterRaise(inputFilename: Path, accountsOnly: Option<set<Account>>, strict: bool, cs: seq<Candidate>, c: Candidate)
    requires Scan(inputFilename, accountsOnly, strict, cs).DateValueError?
    requires RaisesAsSummarized(inputFilename, accountsOnly, strict, cs)
    ensures ReturnsAsSummarized(inputFilename, accountsOnly, strict, cs + [c])
    ensures RaisesAsSummarized(inputFilename, accountsOnly, strict, cs + [c])
  {
    ScanAppend(inputFilename, accountsOnly, strict, cs, c);
    AdmittedAppend(accountsOnly, cs, c);
    var before := Admitted(accountsOnly, cs);
    if IsDated(c) && Admits(accountsOnly, c.accountName) {
      FirstInvalidAppend(before, c);
      assert (before + [c])[FirstInvalid(before).value] == before[FirstInvalid(before).value];
    }
  }

  lemma SummaryAfterReturn(inputFilename: Path, accountsOnly: Option<set<Account>>, strict: bool, cs: seq<Candidate>, c: Candidate)
    requires Scan(inputFilename, accountsOnly, strict, cs).Returned?
    requires ReturnsAsSummarized(inputFilename, accountsOnly, strict, cs)
    ensures ReturnsAsSummarized(inputFilename, accountsOnly, strict, cs + [c])
    ensures RaisesAsSummarized(inputFilename, accountsOnly, strict, cs + [c])
  {
    var decision := Decide(inputFilename, accountsOnly, strict, c);
    if decision.InvalidDate? {
      SummaryAfterInvalidDate(inputFilename, accountsOnly, strict, cs, c);
    } else if decision.Emit? {
      SummaryAfterEmit(inputFilename, accountsOnly, strict, cs, c);
    } else if decision.Report? {
      SummaryAfterReport(inputFilename, accountsOnly, strict, cs, c);
    } else {
      SummaryAfterNothing(inputFilename, accountsOnly, strict, cs, c);
    }
  }

  lemma SummaryAfterInvalidDate(inputFilename: Path, accountsOnly: Option<set<Account>>, strict: bool, cs: seq<Candidate>, c: Candidate)
    requires Scan(inputFilename, accountsOnly, strict, cs).Returned?
    requires ReturnsAsSummarized(inputFilename, accountsOnly, strict, cs)
    requires Decide(inputFilename, accountsOnly, strict, c).InvalidDate?
    ensures ReturnsAsSummarized(inputFilename, accountsOnly, strict, cs + [c])
    ensures RaisesAsSummarized(inputFilename, accountsOnly, strict, cs + [c])
  {
    InvalidDateRaises(inputFilename, accountsOnly, strict, cs, c);
    InvalidDateIsFirst(accountsOnly, cs, c);
  }

  lemma InvalidDateRaises(inputFilename: Path, accountsOnly: Option<set<Account>>, strict: bool, cs: seq<Candidate>, c: Candidate)
    requires Scan(inputFilename, accountsOnly, strict, cs).Returned?
    requires Decide(inputFilename, accountsOnly, strict, c).InvalidDate?
    ensures Scan(inputFilename, accountsOnly, strict, cs + [c]) == DateValueError(c.filename)
  {
    ScanAppend(inputFilename, accountsOnly, strict, cs, c);
  }

  lemma InvalidDateIsFirst(accountsOnly: Option<set<Account>>, cs: seq<Candidate>, c: Candidate)
    requires FirstInvalid(Admitted(accountsOnly, cs)).None?
    requires IsDated(c) && Admits(accountsOnly, c.accountName) && !HasValidDate(c)
    ensures FirstInvalid(Admitted(accountsOnly, cs + [c])) == Some(|Admitted(accountsOnly, cs)|)
    ensures Admitted(accountsOnly, cs + [c])[|Admitted(accountsOnly, cs)|] == c
  {
    var before := Admitted(accountsOnly, cs);
    AdmittedAppend(accountsOnly, cs, c);
    FirstInvalidAppend(before, c);
    assert (before + [c])[|before|] == c;
  }

  lemma SummaryAfterEmit(inputFilename: Path, accountsOnly: Option<set<Account>>, strict: bool, cs: seq<Candidate>, c: Candidate)
    requires Scan(inputFilename, accountsOnly, strict, cs).Returned?
    requires ReturnsAsSummarized(inputFilename, accountsOnly, strict, cs)
    requires Decide(inputFilename, accountsOnly, strict, c).Emit?
    ensures ReturnsAsSummarized(inputFilename, accountsOnly, strict, cs + [c])
    ensures RaisesAsSummarized(inputFilename, accountsOnly, strict, cs + [c])
  {
    EmitAppends(inputFilename, accountsOnly, strict, cs, c);
    var before := Admitted(accountsOnly, cs);
    DocumentsForAppend(inputFilename, before, c);
    FirstInvalidAppend(before, c);
  }

  lemma EmitAppends(inputFilename: Path, accountsOnly: Option<set<Account>>, strict: bool, cs: seq<Candidate>, c: Candidate)
    requires Scan(inputFilename, accountsOnly, strict, cs).Returned?
    requires Decide(inputFilename, accountsOnly, strict, c).Emit?
    ensures IsDated(c) && HasValidDate(c)
    ensures Scan(inputFilename, accountsOnly, strict, cs + [c])
         == Returned(Found(Scan(inputFilename, accountsOnly, strict, cs).value.entries + [DocumentFor(inputFilename, c)],
                           Scan(inputFilename, accountsOnly, strict, cs).value.errors))
    ensures Admitted(accountsOnly, cs + [c]) == Admitted(accountsOnly, cs) + [c]
    ensures FileErrors(inputFilename, accountsOnly, strict, cs + [c]) == FileErrors(inputFilename, accountsOnly, strict, cs)
  {
    ScanAppend(inputFilename, accountsOnly, strict, cs, c);
    AdmittedAppend(accountsOnly, cs, c);
    ScopeErrorsAppend(inputFilename, accountsOnly, cs, c);
  }

  lemma DocumentsForAppend(inputFilename: Path, cs: seq<Candidate>, c: Candidate)
    requires AllDated(cs) && IsDated(c)
    ensures AllDated(cs + [c])
    ensures DocumentsFor(inputFilename, cs + [c]) == DocumentsFor(inputFilename, cs) + [DocumentFor(inputFilename, c)]
  {
    assert forall k :: 0 <= k < |cs| ==> (cs + [c])[k] == cs[k];
    assert (cs + [c])[..|cs|] == cs;
  }

  lemma SummaryAfterReport(inputFilename: Path, accountsOnly: Option<set<Account>>, strict: bool, cs: seq<Candidate>, c: Candidate)
    requires Scan(inputFilename, accountsOnly, strict, cs).Returned?
    requires ReturnsAsSummarized(inputFilename, accountsOnly, strict, cs)
    requires Decide(inputFilename, accountsOnly, strict, c).Report?
    ensures ReturnsAsSummarized(inputFilename, accountsOnly, strict, cs + [c])
    ensures RaisesAsSummarized(inputFilename, accountsOnly, strict, cs + [c])
  {
    ReportAppends(inputFilename, accountsOnly, strict, cs, c);
  }

  lemma ReportAppends(inputFilename: Path, accountsOnly: Option<set<Account>>, strict: bool, cs: seq<Candidate>, c: Candidate)
    requires Scan(inputFilename, accountsOnly, strict, cs).Returned?
    requires Decide(inputFilename, accountsOnly, strict, c).Report?
    ensures Scan(inputFilename, accountsOnly, strict, cs + [c])
         == Returned(Found(Scan(inputFilename, accountsOnly, strict, cs).value.entries,
                           Scan(inputFilename, accountsOnly, strict, cs).value.errors + [Decide(inputFilename, accountsOnly, strict, c).error]))
    ensures Admitted(accountsOnly, cs + [c]) == Admitted(accountsOnly, cs)
    ensures FileErrors(inputFilename, accountsOnly, strict, cs + [c])
         == FileErrors(inputFilename, accountsOnly, strict, cs) + [Decide(inputFilename, accountsOnly, strict, c).error]
  {
    ScanAppend(inputFilename, accountsOnly, strict, cs, c);
    AdmittedAppend(accountsOnly, cs, c);
    ScopeErrorsAppend(inputFilename, accountsOnly, cs, c);
  }

  lemma SummaryAfterNothing(inputFilename: Path, accountsOnly: Option<set<Account>>, strict: bool, cs: seq<Candidate>, c: Candidate)
    requires Scan(inputFilename, accountsOnly, strict, cs).Returned?
    requires ReturnsAsSummarized(inputFilename, accountsOnly, strict, cs)
    requires Decide(inputFilename, accountsOnly, strict, c).Undated? || Decide(inputFilename, accountsOnly, strict, c).Skipped?
    ensures ReturnsAsSummarized(inputFilename, accountsOnly, strict, cs + [c])
    ensures RaisesAsSummarized(inputFilename, accountsOnly, strict, cs + [c])
  {
    NothingAppends(inputFilename, accountsOnly, strict, cs, c);
  }

  lemma NothingAppends(inputFilename: Path, accountsOnly: Option<set<Account>>, strict: bool, cs: seq<Candidate>, c: Candidate)
    requires Decide(inputFilename, accountsOnly, strict, c).Undated? || Decide(inputFilename, accountsOnly, strict, c).Skipped?
    ensures Scan(inputFilename, accountsOnly, strict, cs + [c]) == Scan(inputFilename, accountsOnly, strict, cs)
    ensures Admitted(accountsOnly, cs + [c]) == Admitted(accountsOnly, cs)
    ensures FileErrors(inputFilename, accountsOnly, strict, cs + [c]) == FileErrors(inputFilename, accountsOnly, strict, cs)
  {
    ScanAppend(inputFilename, accountsOnly, strict, cs, c);
    if Decide(inputFilename, accountsOnly, strict, c).Undated? {
      UndatedAppends(inputFilename, accountsOnly, strict, cs, c);
    } else {
      SkippedAppends(inputFilename, accountsOnly, strict, cs, c);
    }
  }

  lemma UndatedAppends(inputFilename: Path, accountsOnly: Option<set<Account>>, strict: bool, cs: seq<Candidate>, c: Candidate)
    requires !IsDated(c)
    ensures Admitted(accountsOnly, cs + [c]) == Admitted(accountsOnly, cs)
    ensures ScopeErrors(inputFilename, accountsOnly, cs + [c]) == ScopeErrors(inputFilename, accountsOnly, cs)
  {
    AdmittedAppend(accountsOnly, cs, c);
    ScopeErrorsAppend(inputFilename, accountsOnly, cs, c);
  }

  lemma SkippedAppends(inputFilename: Path, accountsOnly: Option<set<Account>>, strict: bool, cs: seq<Candidate>, c: Candidate)
    requires Decide(inputFilename, accountsOnly, strict, c).Skipped?
    ensures Admitted(accountsOnly, cs + [c]) == Admitted(accountsOnly, cs)
    ensures FileErrors(inputFilename, accountsOnly, strict, cs + [c]) == FileErrors(inputFilename, accountsOnly, strict, cs)
  {
    AdmittedAppend(accountsOnly, cs, c);
    ScopeErrorsAppend(inputFilename, accountsOnly, cs, c);
  }

  lemma AdmittedAppend(accountsOnly: Option<set<Account>>, cs: seq<Candidate>, c: Candidate)
    ensures IsDated(c) && Admits(accountsOnly, c.accountName) ==>
              Admitted(accountsOnly, cs + [c]) == Admitted(accountsOnly, cs) + [c]
    ensures !(IsDated(c) && Admits(accountsOnly, c.accountName)) ==>
              Admitted(accountsOnly, cs + [c]) == Admitted(accountsOnly, cs)
  {
    assert (cs + [c])[..|cs|] == cs;
    assert Admitted(accountsOnly, cs) + [] == Admitted(accountsOnly, cs);
  }

  lemma ScopeErrorsAppend(inputFilename: Path, accountsOnly: Option<set<Account>>, cs: seq<Candidate>, c: Candidate)
    ensures IsDated(c) && !Admits(accountsOnly, c.accountName) && ScopeError(inputFilename, accountsOnly.value, c).Some? ==>
              ScopeErrors(inputFilename, accountsOnly, cs + [c])
                == ScopeErrors(inputFilename, accountsOnly, cs) + [ScopeError(inputFilename, accountsOnly.value, c).value]
    ensures !(IsDated(c) && !Admits(accountsOnly, c.accountName) && ScopeError(inputFilename, accountsOnly.value, c).Some?) ==>
              ScopeErrors(inputFilename, accountsOnly, cs + [c]) == ScopeErrors(inputFilename, accountsOnly, cs)
  {
    assert (cs + [c])[..|cs|] == cs;
    assert ScopeErrors(inputFilename, accountsOnly, cs) + [] == ScopeErrors(inputFilename, accountsOnly, cs);
  }

  /** A file whose name does not match the date pattern changes nothing, in
      strict mode too: the pattern test comes before the account filter. */
  lemma {:induction false} UndatedFileIgnored(inputFilename: Path, accountsOnly: Option<set<Account>>, strict: bool,
                                              before: seq<Candidate>, c: Candidate, after: seq<Candidate>)
    requires !IsDated(c)
    ensures Scan(inputFilename, accountsOnly, strict, before + [c] + after)
         == Scan(inputFilename, accountsOnly, strict, before + after)
    decreases |after|
  {
    if after == [] {
      ScanAppend(inputFilename, accountsOnly, strict, before, c);
      assert before + [c] + after == before + [c];
      assert before + after == before;
    } else {
      var n := |after| - 1;
      var last := after[n];
      UndatedFileIgnored(inputFilename, accountsOnly, strict, before, c, after[..n]);
      assert before + [c] + after == (before + [c] + after[..n]) + [last];
      assert before + after == (before + after[..n]) + [last];
      ScanAppend(inputFilename, accountsOnly, strict, before + [c] + after[..n], last);
      ScanAppend(inputFilename, accountsOnly, strict, before + after[..n], last);
    }
  }

  /** The dated files of `cs`, in order. */
  function DatedFiles(cs: seq<Candidate>): (r: seq<Candidate>)
    ensures AllDated(r)
  {
    if cs == [] then []
    else
      var c := cs[|cs| - 1];
      DatedFiles(cs[..|cs| - 1]) + (if IsDated(c) then [c] else [])
  }

  lemma {:induction false} UnfilteredAdmitsDated(inputFilename: Path, accountsOnly: Option<set<Account>>, cs: seq<Candidate>)
    requires !Restricting(accountsOnly)
    ensures Admitted(accountsOnly, cs) == DatedFiles(cs)
    ensures ScopeErrors(inputFilename, accountsOnly, cs) == []
  {
    if cs != [] {
      UnfilteredAdmitsDated(inputFilename, accountsOnly, cs[..|cs| - 1]);
    }
  }

  /** Without a filter (None or the empty set), when every dated file names a
      valid date, every dated file of the walk yields exactly one Document
      directive and nothing else is reported: source (input file, 0), the
      walk's account, the root joined with the file name, walk order then file
      order. */
  lemma UnfilteredFindsEveryDatedFile(directory: Path, inputFilename: Path, accountsOnly: Option<set<Account>>,
                                      strict: bool, env: Env)
    requires !Restricting(accountsOnly)
    requires ResolveRoot(env, directory, inputFilename) in env.existing
    requires AllValidDates(DatedFiles(Candidates(env.walk(ResolveRoot(env, directory, inputFilename)))))
    ensures Find(directory, inputFilename, accountsOnly, strict, env)
         == Returned(Found(DocumentsFor(inputFilename, DatedFiles(Candidates(env.walk(ResolveRoot(env, directory, inputFilename))))), []))
  {
    var cs := Candidates(env.walk(ResolveRoot(env, directory, inputFilename)));
    UnfilteredAdmitsDated(inputFilename, accountsOnly, cs);
    ScanSummary(inputFilename, accountsOnly, strict, cs);
    FirstInvalidSpec(DatedFiles(cs));
    assert Scan(inputFilename, accountsOnly, strict, cs).Returned?;
  }

  /** The directives made for admitted files are Document directives in
      accounts the filter admits. */
  lemma DocumentsForAdmitted(inputFilename: Path, accountsOnly: Option<set<Account>>, cs: seq<Candidate>)
    requires Restricting(accountsOnly)
    ensures forall d :: d in DocumentsFor(inputFilename, Admitted(accountsOnly, cs)) ==> d.Document? && d.account in accountsOnly.value
  {
    var adm := Admitted(accountsOnly, cs);
    var ds := DocumentsFor(inputFilename, adm);
    forall d | d in ds
      ensures d.Document? && d.account in accountsOnly.value
    {
      var k :| 0 <= k < |ds| && ds[k] == d;
      DocumentsForAt(inputFilename, adm, k);
    }
  }

  /** Every dated file the filter admits has its directive made. */
  lemma AdmittedDocumentFound(inputFilename: Path, accountsOnly: Option<set<Account>>, cs: seq<Candidate>, c: Candidate)
    requires c in cs && IsDated(c) && Admits(accountsOnly, c.accountName)
    ensures DocumentFor(inputFilename, c) in DocumentsFor(inputFilename, Admitted(accountsOnly, cs))
  {
    var adm := Admitted(accountsOnly, cs);
    AdmittedMember(accountsOnly, cs, c);
    var k :| 0 <= k < |adm| && adm[k] == c;
    DocumentsForAt(inputFilename, adm, k);
  }

  /** With a non-empty filter every directive found belongs to a filter account,
      and every dated file in a filter account is found. */
  lemma FilteredFindsMembersOnly(directory: Path, inputFilename: Path, accountsOnly: Option<set<Account>>,
                                 strict: bool, env: Env)
    requires Restricting(accountsOnly)
    requires Find(directory, inputFilename, accountsOnly, strict, env).Returned?
    ensures forall d :: d in Find(directory, inputFilename, accountsOnly, strict, env).value.entries ==>
              d.Document? && d.account in accountsOnly.value
    ensures ResolveRoot(env, directory, inputFilename) in env.existing ==>
              forall c :: c in Candidates(env.walk(ResolveRoot(env, directory, inputFilename))) && IsDated(c)
                          && c.accountName in accountsOnly.value ==>
                DocumentFor(inputFilename, c) in Find(directory, inputFilename, accountsOnly, strict, env).value.entries
  {
    var root := ResolveRoot(env, directory, inputFilename);
    if root in env.existing {
      var cs := Candidates(env.walk(root));
      ScanSummary(inputFilename, accountsOnly, strict, cs);
      DocumentsForAdmitted(inputFilename, accountsOnly, cs);
      forall c | c in cs && IsDated(c) && c.accountName in accountsOnly.value
        ensures DocumentFor(inputFilename, c) in DocumentsFor(inputFilename, Admitted(accountsOnly, cs))
      {
        AdmittedDocumentFound(inputFilename, accountsOnly, cs, c);
      }
    }
  }

  /** Outside strict mode the only error `find_documents` reports is the
      missing root; files outside the filter are skipped silently. */
  lemma NonStrictReportsOnlyMissingRoot(directory: Path, inputFilename: Path, accountsOnly: Option<set<Account>>, env: Env)
    requires Find(directory, inputFilename, accountsOnly, false, env).Returned?
    ensures Find(directory, inputFilename, accountsOnly, false, env).value.errors
              == if ResolveRoot(env, directory, inputFilename) in env.existing then []
                 else [DocumentError(Source(inputFilename, 0), MissingRoot(ResolveRoot(env, directory, inputFilename)), None)]
  {
    var root := ResolveRoot(env, directory, inputFilename);
    if root in env.existing {
      ScanSummary(inputFilename, accountsOnly, false, Candidates(env.walk(root)));
    }
  }

  /** In strict mode the errors are the scope errors of the dated files outside
      the filter, in walk order: at most one per file, child before parent. */
  lemma StrictReportsScopeErrors(directory: Path, inputFilename: Path, accountsOnly: Option<set<Account>>, env: Env)
    requires ResolveRoot(env, directory, inputFilename) in env.existing
    requires Find(directory, inputFilename, accountsOnly, true, env).Returned?
    ensures Find(directory, inputFilename, accountsOnly, true, env).value.errors
         == ScopeErrors(inputFilename, accountsOnly, Candidates(env.walk(ResolveRoot(env, directory, inputFilename))))
  {
    ScanSummary(inputFilename, accountsOnly, true, Candidates(env.walk(ResolveRoot(env, directory, inputFilename))));
  }

  /** A root that does not exist gives no directives and exactly one error,
      naming the resolved directory. */
  lemma MissingRootShortCircuits(directory: Path, inputFilename: Path, accountsOnly: Option<set<Account>>, strict: bool, env: Env)
    requires ResolveRoot(env, directory, inputFilename) !in env.existing
    ensures Find(directory, inputFilename, accountsOnly, strict, env)
         == Returned(Found([], [DocumentError(Source(inputFilename, 0), MissingRoot(ResolveRoot(env, directory, inputFilename)), None)]))
  {
  }

  /** `datetime.date` raises exactly when some admitted dated file names an invalid date. */
  lemma DateErrorExactlyOnInvalidDate(inputFilename: Path, accountsOnly: Option<set<Account>>, strict: bool, cs: seq<Candidate>)
    ensures Scan(inputFilename, accountsOnly, strict, cs).DateValueError? <==> !AllValidDates(Admitted(accountsOnly, cs))
  {
    ScanSummary(inputFilename, accountsOnly, strict, cs);
    FirstInvalidSpec(Admitted(accountsOnly, cs));
  }

  // ---------------------------------------------------------------------------
  // process_documents

  /** The options `process_documents` reads: the ledger file name and the document roots. */
  datatype Options = Options(filename: Path, documents: seq<Path>)

  /** The finder run over each root directory in turn, with the ledger's accounts
      as filter and strict mode off, results concatenated in root order. */
  function FindAll(dirs: seq<Path>, inputFilename: Path, accounts: set<Account>, env: Env): Outcome<Found>
  {
    if dirs == [] then Returned(Found([], []))
    else
      match FindAll(dirs[..|dirs| - 1], inputFilename, accounts, env)
      case DateValueError(name) => DateValueError(name)
      case Returned(acc) =>
        match Find(dirs[|dirs| - 1], inputFilename, Some(accounts), false, env)
        case DateValueError(name) => DateValueError(name)
        case Returned(f) => Returned(Found(acc.entries + f.entries, acc.errors + f.errors))
  }

  /** The missing-root errors of the roots that do not exist, in root order. */
  function MissingRoots(dirs: seq<Path>, inputFilename: Path, env: Env): seq<DocumentError>
  {
    if dirs == [] then []
    else
      var root := ResolveRoot(env, dirs[|dirs| - 1], inputFilename);
      MissingRoots(dirs[..|dirs| - 1], inputFilename, env)
        + (if root in env.existing then [] else [DocumentError(Source(inputFilename, 0), MissingRoot(root), None)])
  }

  /** The finder errors `process_documents` collects are the missing roots, in
      the configured order, and every directive it finds is in a ledger account
      (when the ledger has any). */
  lemma {:induction false} FindAllReportsMissingRoots(dirs: seq<Path>, inputFilename: Path, accounts: set<Account>, env: Env)
    requires FindAll(dirs, inputFilename, accounts, env).Returned?
    ensures FindAll(dirs, inputFilename, accounts, env).value.errors == MissingRoots(dirs, inputFilename, env)
    ensures accounts != {} ==>
              forall d :: d in FindAll(dirs, inputFilename, accounts, env).value.entries ==> d.Document? && d.account in accounts
  {
    if dirs != [] {
      var n := |dirs| - 1;
      FindAllReportsMissingRoots(dirs[..n], inputFilename, accounts, env);
      NonStrictReportsOnlyMissingRoot(dirs[n], inputFilename, Some(accounts), env);
      if accounts != {} {
        FilteredFindsMembersOnly(dirs[n], inputFilename, Some(accounts), false, env);
      }
    }
  }

  lemma {:induction false} FindAllFailurePersists(dirs: seq<Path>, k: nat, inputFilename: Path, accounts: set<Account>, env: Env)
    requires k <= |dirs|
    requires FindAll(dirs[..k], inputFilename, accounts, env).DateValueError?
    ensures FindAll(dirs, inputFilename, accounts, env) == FindAll(dirs[..k], inputFilename, accounts, env)
    decreases |dirs|
  {
    if k < |dirs| {
      assert dirs[..|dirs| - 1][..k] == dirs[..k];
      FindAllFailurePersists(dirs[..|dirs| - 1], k, inputFilename, accounts, env);
    } else {
      assert dirs[..k] == dirs;
    }
  }

  /** The loop of `process_documents` over the configured roots: the finder
      once per root, in order, with strict mode off; `finderCalls` records the
      roots it was run on. */
  method FindInRoots(documentDirs: seq<Path>, filename: Path, ledgerAccounts: set<Account>, env: Env)
    returns (r: Outcome<Found>, ghost finderCalls: seq<Path>)
    ensures r == FindAll(documentDirs, filename, ledgerAccounts, env)
    ensures finderCalls <= documentDirs
    ensures r.Returned? ==> finderCalls == documentDirs
  {
    var autodocEntries: seq<Directive> := [];
    var autodocErrors: seq<DocumentError> := [];
    finderCalls := [];
    var i := 0;
    while i < |documentDirs|
      invariant 0 <= i <= |documentDirs|
      invariant finderCalls == documentDirs[..i]
      invariant FindAll(documentDirs[..i], filename, ledgerAccounts, env) == Returned(Found(autodocEntries, autodocErrors))
    {
      var directory := documentDirs[i];
      var found := FindDocuments(directory, filename, Some(ledgerAccounts), false, env);
      finderCalls := finderCalls + [directory];
      assert documentDirs[..i + 1][..i] == documentDirs[..i];
      if found.DateValueError? {
        FindAllFailurePersists(documentDirs, i + 1, filename, ledgerAccounts, env);
        r := DateValueError(found.filename);
        return;
      }
      autodocEntries := autodocEntries + found.value.entries;
      autodocErrors := autodocErrors + found.value.errors;
      i := i + 1;
    }
    assert documentDirs[..i] == documentDirs;
    r := Returned(Found(autodocEntries, autodocErrors));
  }

  /** `process_documents`: verifies the ledger's Document directives, runs the
      finder once per configured root (never when there is none), extends the
      caller's list with everything found and sorts it by the key. Returns that
      same list with the verification errors followed by the finder errors. A
      date error raised by the finder leaves the list as it was. */
  method ProcessDocuments<K(!new)>(entries: EntryList, options: Options, env: Env,
                                   getAccounts: seq<Directive> -> set<Account>,
                                   key: Directive -> K, lessEq: (K, K) -> bool)
    returns (r: Outcome<(EntryList, seq<DocumentError>)>, ghost finderCalls: seq<Path>)
    requires TotalPreorder(lessEq)
    modifies entries
    ensures finderCalls <= options.documents
    ensures options.documents == [] ==> finderCalls == []
    ensures FindAll(options.documents, options.filename, getAccounts(old(entries.items)), env).Returned? ==>
              && r == Returned((entries, MissingFileErrors(env.existing, old(entries.items))
                                           + FindAll(options.documents, options.filename, getAccounts(old(entries.items)), env).value.errors))
              && multiset(entries.items)
                   == multiset(old(entries.items) + FindAll(options.documents, options.filename, getAccounts(old(entries.items)), env).value.entries)
              && |entries.items| == |old(entries.items)|
                                      + |FindAll(options.documents, options.filename, getAccounts(old(entries.items)), env).value.entries|
              && SortedBy(entries.items, key, lessEq)
              && finderCalls == options.documents
    ensures FindAll(options.documents, options.filename, getAccounts(old(entries.items)), env).DateValueError? ==>
              && r == DateValueError(FindAll(options.documents, options.filename, getAccounts(old(entries.items)), env).filename)
              && entries.items == old(entries.items)
  {
    var filename := options.filename;
    var checked, documentErrors := VerifyDocumentEntries(entries.items, env.existing);
    var found: Outcome<Found> := Returned(Found([], []));
    finderCalls := [];
    var documentDirs := options.documents;
    if documentDirs != [] {
      var ledgerAccounts := getAccounts(checked);
      found, finderCalls := FindInRoots(documentDirs, filename, ledgerAccounts, env);
      if found.DateValueError? {
        r := DateValueError(found.filename);
        return;
      }
    }
    entries.Extend(found.value.entries);
    ghost var extended := entries.items;
    entries.Sort(key, lessEq);
    assert |entries.items| == |multiset(entries.items)| == |multiset(extended)| == |extended|;
    r := Returned((entries, documentErrors + found.value.errors));
  }
}
