/** Binding instance ports to queues: who becomes a queue's writer and its reader, and what is rejected. */
module Wiring {
  datatype PortKind = Produces | Consumes | State | Peeks

  datatype Binding = Binding(owner: string, queue: string, kind: PortKind)

  predicate Writes(b: Binding) {
    b.kind == Produces || b.kind == State
  }

  predicate Reads(b: Binding) {
    b.kind == Consumes || b.kind == State
  }

  /** An earlier binding of the same queue that writes it, or that reads it. */
  predicate HasWriter(bs: seq<Binding>, n: nat, queue: string)
    requires n <= |bs|
  {
    exists i | 0 <= i < n :: bs[i].queue == queue && Writes(bs[i])
  }

  predicate HasReader(bs: seq<Binding>, n: nat, queue: string)
    requires n <= |bs|
  {
    exists i | 0 <= i < n :: bs[i].queue == queue && Reads(bs[i])
  }

  predicate Rejected(bs: seq<Binding>, i: nat)
    requires i < |bs|
  {
    (bs[i].kind == Produces && HasWriter(bs, i, bs[i].queue)) || (bs[i].kind == Consumes && HasReader(bs, i, bs[i].queue))
  }

  /** The first owner recorded for each queue. */
  predicate Records(owners: map<string, string>, bs: seq<Binding>, n: nat, writing: bool)
    requires n <= |bs|
  {
    && (forall q | q in owners :: exists i | 0 <= i < n :: bs[i].queue == q && bs[i].owner == owners[q] && FirstAt(bs, i, writing))
    && (forall i | 0 <= i < n && (if writing then Writes(bs[i]) else Reads(bs[i])) :: bs[i].queue in owners)
  }

  predicate FirstAt(bs: seq<Binding>, i: nat, writing: bool)
    requires i < |bs|
  {
    if writing then Writes(bs[i]) && !HasWriter(bs, i, bs[i].queue) else Reads(bs[i]) && !HasReader(bs, i, bs[i].queue)
  }

  class PendingEdges {
    var writer: map<string, string>
    var reader: map<string, string>

    constructor ()
      ensures writer == map[] && reader == map[]
    {
      writer, reader := map[], map[];
    }

    /** One binding; true when it is accepted. A state port takes whichever of the two places is free, and
        is never rejected. */
    method Bind(b: Binding) returns (accepted: bool)
      modifies this
      ensures accepted <==> !(b.kind == Produces && b.queue in old(writer)) && !(b.kind == Consumes && b.queue in old(reader))
      ensures writer == if Writes(b) && b.queue !in old(writer) then old(writer)[b.queue := b.owner] else old(writer)
      ensures reader == if Reads(b) && b.queue !in old(reader) then old(reader)[b.queue := b.owner] else old(reader)
    {
      accepted := true;
      match b.kind
      case Produces =>
        if b.queue in writer {
          accepted := false;
        } else {
          writer := writer[b.queue := b.owner];
        }
      case Consumes =>
        if b.queue in reader {
          accepted := false;
        } else {
          reader := reader[b.queue := b.owner];
        }
      case State =>
        if b.queue !in writer {
          writer := writer[b.queue := b.owner];
        }
        if b.queue !in reader {
          reader := reader[b.queue := b.owner];
        }
      case Peeks =>
    }

    /** All bindings in order. Each queue gets its first writer and its first reader, and exactly the
        later producers and consumers are rejected. */
    method BindAll(bs: seq<Binding>) returns (errors: set<nat>)
      requires writer == map[] && reader == map[]
      modifies this
      ensures forall i: nat :: i in errors <==> i < |bs| && Rejected(bs, i)
      ensures Records(writer, bs, |bs|, true) && Records(reader, bs, |bs|, false)
    {
      hide Records, HasWriter, HasReader, FirstAt;
      errors := {};
      NoOwners(bs, true);
      NoOwners(bs, false);
      for n := 0 to |bs|
        invariant forall i: nat :: i in errors <==> i < n && Rejected(bs, i)
        invariant Records(writer, bs, n, true) && Records(reader, bs, n, false)
      {
        KnownOwners(writer, bs, n, true, bs[n].queue);
        KnownOwners(reader, bs, n, false, bs[n].queue);
        ghost var w, r := writer, reader;
        var accepted := Bind(bs[n]);
        OneMoreOwner(w, writer, bs, n, true);
        OneMoreOwner(r, reader, bs, n, false);
        if !accepted {
          errors := errors + {n};
        }
      }
    }
  }

  lemma NoOwners(bs: seq<Binding>, writing: bool)
    ensures Records(map[], bs, 0, writing)
  {
  }

  lemma KnownOwners(owners: map<string, string>, bs: seq<Binding>, n: nat, writing: bool, q: string)
    requires n <= |bs| && Records(owners, bs, n, writing)
    ensures q in owners <==> if writing then HasWriter(bs, n, q) else HasReader(bs, n, q)
  {
  }

  lemma OneMoreOwner(before: map<string, string>, after: map<string, string>, bs: seq<Binding>, n: nat, writing: bool)
    requires n < |bs| && Records(before, bs, n, writing)
    requires var b := bs[n];
             after == if (if writing then Writes(b) else Reads(b)) && b.queue !in before then before[b.queue := b.owner] else before
    ensures Records(after, bs, n + 1, writing)
  {
  }

  /** At most one instance writes each queue, and at most one reads it. */
  predicate SingleWriterSingleReader(bs: seq<Binding>) {
    forall i, j | 0 <= i < j < |bs| && bs[i].queue == bs[j].queue && bs[i].owner != bs[j].owner ::
      !(Writes(bs[i]) && Writes(bs[j])) && !(Reads(bs[i]) && Reads(bs[j]))
  }

  /** A state port bound to a queue that another instance already writes or reads. */
  predicate SharedState(bs: seq<Binding>, i: nat, j: nat)
    requires i < j < |bs|
  {
    bs[j].kind == State && bs[i].kind != Peeks && bs[i].queue == bs[j].queue && bs[i].owner != bs[j].owner
  }

  /** A wiring without errors gives every queue one writer and one reader exactly when no state port
      joins a queue of another instance: that case is not rejected. */
  lemma AcceptedIsSingleIff(bs: seq<Binding>)
    requires forall i | 0 <= i < |bs| :: !Rejected(bs, i)
    ensures SingleWriterSingleReader(bs) <==> forall i, j | 0 <= i < j < |bs| :: !SharedState(bs, i, j)
  {
    forall i, j | 0 <= i < j < |bs| && bs[i].queue == bs[j].queue && bs[i].owner != bs[j].owner
      ensures (Writes(bs[i]) && Writes(bs[j])) || (Reads(bs[i]) && Reads(bs[j])) <==> SharedState(bs, i, j)
    {
      assert !Rejected(bs, j);
    }
  }

  /** Such a wiring exists. */
  lemma StatePortJoins()
    ensures var bs := [Binding("a", "q", Produces), Binding("b", "q", State)];
            (forall i | 0 <= i < |bs| :: !Rejected(bs, i)) && !SingleWriterSingleReader(bs)
  {
    var bs := [Binding("a", "q", Produces), Binding("b", "q", State)];
    assert Writes(bs[0]) && Writes(bs[1]);
  }
}
