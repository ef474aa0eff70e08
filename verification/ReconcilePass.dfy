/** One reconcile of a controller, from the leadership it believes in to the published files. */
module ReconcilePass {
  import opened Types
  import opened Ordering
  import opened StorageFit
  import opened Scheduler
  import opened RecordBook
  import opened RetainedRecords
  import opened NodeConfigs
  import opened AdmissionBound
  import opened LoadableRecords
  import opened SecondPass
  import P = Pointers
  import opened Publishing

  /** The records in the store as a pass meets them: which can be read, and for which its
      conditional write, if it makes one, goes through. */
  datatype Stored = Stored(records: Book, readable: set<VolumeId>, wins: VolumeId -> bool)

  /** What a pass reads besides the records: the desired revision, the active nodes with their
      host IPs, and the placement in force. */
  datatype Inputs = Inputs(
    revision: string, services: seq<ServiceConfig>, nodes: NodeList, hostIPs: map<string, string>,
    lastPlacement: seq<NodeConfig>)
  {
    function SignatureFor(book: Book): Signature {
      Signature(revision, nodes, hostIPs, book)
    }
  }

  /** What a pass decided: the records it resolved the services with, those it left, and the
      placement it published. */
  datatype Decision = Decision(
    accepted: Book, final: Book, placed: map<string, seq<ServiceConfig>>, configs: seq<NodeConfig>,
    pending: seq<Pending>)

  datatype End = Idle | Failed | Skipped | Unpublished | Published

  function NamesOf(configs: seq<NodeConfig>): seq<string> {
    Images((nc: NodeConfig) => nc.node, configs)
  }

  /** The records loaded, the services took what they retain, and the result is in `d`. */
  ghost predicate Accepts(i: Inputs, stored: Stored, d: Decision) {
    && Loads(stored.records) && stored.records.Keys <= stored.readable
    && Resolve(i.services, stored.records).Some?
    && Resolve(i.services, stored.records).value.book == d.accepted
  }

  /** The placement is the scheduler's, its configs are built from it, each new volume is on
      record, and every node given a service has room for all that is recorded on it. */
  ghost predicate Decides(i: Inputs, stored: Stored, d: Decision) {
    && Accepts(i, stored, d)
    && (exists res :: Counts(res, d.accepted) &&
          Outcome(d.placed, d.pending)
          == Schedule(Problem(i.nodes, Assignment(i.lastPlacement), res),
                      Resolve(i.services, stored.records).value.value))
    && IsNodeConfigs(d.configs, d.placed) && d.final == RecordAll(d.configs, d.accepted)
    && Admitted(i.nodes, d.placed, d.accepted, d.final)
  }

  /** All records can be read, load and fit the services, and each write of a record goes
      through. */
  ghost predicate Acceptable(i: Inputs, stored: Stored) {
    && Loads(stored.records) && stored.records.Keys <= stored.readable && Resolve(i.services, stored.records).Some?
    && forall id :: stored.wins(id)
  }

  /** runReconcile up to publishing. */
  method Decide(i: Inputs, stored: Stored, last: Option<Signature>) returns (verdict: Verdict, d: Decision)
    requires Enriched(i.services)
    ensures Acceptable(i, stored) ==> !verdict.Failed?
    ensures verdict.Decided? ==> Decides(i, stored, d) && last != Some(i.SignatureFor(d.accepted))
    ensures verdict.Skipped? ==> Accepts(i, stored, d) && last == Some(i.SignatureFor(d.accepted))
  {
    verdict, d := Verdict.Failed, Decision(map[], map[], map[], [], []);
    var loaded := LoadVolumeRecords(stored.records, stored.readable);
    if loaded.None? {
      return;
    }
    var pass := new Pass(i.services, loaded.value);
    var v, configs, pending, accepted, placed :=
      ReconcileStorage(pass, i.revision, i.nodes, i.hostIPs, last, i.lastPlacement, stored.wins);
    verdict, d := v, Decision(accepted, pass.book, placed, configs, pending);
  }

  /** runReconcile. Nothing is published unless the process believes to lead and has decided on
      a placement that every node has room for and whose volumes are on record; then the
      accesses are those of the publishing program, up to the first that fails. The signature
      is remembered only when all of them went through. When nothing fails, a leader's pass is
      published or has nothing new. */
  method RunReconcile(leader: bool, i: Inputs, stored: Stored, last: Option<Signature>, publisher: Publisher,
                      placement: string, rendered: string, course: Course)
    returns (end: End, signature: Option<Signature>, d: Decision)
    requires Enriched(i.services) && publisher.ptrs.Valid() && course.Valid()
    modifies publisher
    ensures !leader <==> end.Idle?
    ensures leader && Acceptable(i, stored) && course.Smooth() ==> end.Published? || end.Skipped?
    ensures end.Skipped? ==> Accepts(i, stored, d) && last == Some(i.SignatureFor(d.accepted))
    ensures end.Published? || end.Unpublished? ==>
              leader && Decides(i, stored, d) && last != Some(i.SignatureFor(d.accepted))
    ensures var program := P.PassProgram(i.revision, placement, rendered, NamesOf(d.configs));
            match end
            case Published => publisher.made == old(publisher.made) + program
            case Unpublished => PrefixMade(old(publisher.made), publisher.made, program)
            case _ =>
              publisher.made == old(publisher.made) && publisher.objects == old(publisher.objects)
                && publisher.ptrs == old(publisher.ptrs)
    ensures signature == if end.Published? then Some(i.SignatureFor(d.accepted)) else last
  {
    end, signature, d := Idle, last, Decision(map[], map[], map[], [], []);
    if !leader {
      return;
    }
    var verdict;
    verdict, d := Decide(i, stored, last);
    if verdict.Failed? {
      end := End.Failed;
      return;
    }
    if verdict.Skipped? {
      end := End.Skipped;
      return;
    }
    var ok := publisher.Publish(i.revision, placement, rendered, NamesOf(d.configs), course);
    if ok {
      end, signature := Published, Some(i.SignatureFor(d.accepted));
    } else {
      end := Unpublished;
    }
  }

  /** Skipping loses nothing. A pass that finds the signature of the last published one, with
      that one's placement in force and its records still there, would decide the same
      placement, pending list and configs again, and put nothing on record. */
  lemma SkipLosesNothing(i: Inputs, stored: Stored, d: Decision, i': Inputs, stored': Stored, d': Decision)
    requires Enriched(i.services) && Decides(i, stored, d)
    requires i'.services == i.services && i'.lastPlacement == d.configs && d.final.Keys <= stored'.records.Keys
    requires Decides(i', stored', d') && i'.SignatureFor(d'.accepted) == i.SignatureFor(d.accepted)
    ensures d'.placed == d.placed && d'.pending == d.pending && d'.configs == d.configs && d'.final == d'.accepted
  {
    var first, second := Resolve(i.services, stored.records).value, Resolve(i'.services, stored'.records).value;
    var res :| Counts(res, d.accepted)
               && Outcome(d.placed, d.pending) ==
                    Schedule(Problem(i.nodes, Assignment(i.lastPlacement), res), first.value);
    var res' :| Counts(res', d'.accepted)
                && Outcome(d'.placed, d'.pending) ==
                     Schedule(Problem(i'.nodes, Assignment(i'.lastPlacement), res'), second.value);
    ResolveMeaning(i'.services, stored'.records, second);
    SkippedPassIsTheSame(i.services, stored.records, i.nodes, Assignment(i.lastPlacement), res, first, d.configs,
                         stored'.records, second, res', d'.configs);
  }
}
