/** The hash-chained receipt ledger (app/receipts.py).

    The hash is a parameter: an injective function of everything an entry holds
    except its own hash. */
module Ledger {
  import opened Ordering
  import opened Rights

  /** Everything that is hashed.  `body` stands for all the fields of an entry other
      than its number and its link, after redaction. */
  datatype Contents = Contents(seqNo: Option<int>, prior: Option<string>, body: string)

  datatype LedgerEntry = LedgerEntry(contents: Contents, entryHash: Option<string>)

  /** A line of the file: skipped, not an entry at all, or an entry. */
  datatype Line = Blank | Garbled | Record(entry: LedgerEntry)

  type Hash = Contents -> string

  ghost predicate IsInjective(hash: Hash) {
    forall a, b :: hash(a) == hash(b) ==> a == b
  }

  function EntriesOf(lines: seq<Line>): seq<LedgerEntry> {
    if lines == [] then []
    else (if lines[0].Record? then [lines[0].entry] else []) + EntriesOf(lines[1..])
  }

  // --- verification -------------------------------------------------------------------

  datatype Check = Intact(count: nat) | SequenceBreak | ChainBreak | Modified | Unreadable

  function CheckEntry(hash: Hash, e: LedgerEntry, expected: nat, prior: Option<string>): Check {
    if e.contents.seqNo != Some(expected) then SequenceBreak
    else if e.contents.prior != prior then ChainBreak
    else if e.entryHash != Some(hash(e.contents)) then Modified
    else Intact(expected)
  }

  function CheckLines(hash: Hash, lines: seq<Line>, expected: nat, prior: Option<string>): Check
    requires expected > 0
  {
    if lines == [] then Intact(expected - 1)
    else
      match lines[0]
      case Blank => CheckLines(hash, lines[1..], expected, prior)
      case Garbled => Unreadable
      case Record(e) =>
        if CheckEntry(hash, e, expected, prior).Intact? then CheckLines(hash, lines[1..], expected + 1, e.entryHash)
        else CheckEntry(hash, e, expected, prior)
  }

  function Verify(hash: Hash, lines: seq<Line>): Check { CheckLines(hash, lines, 1, None) }

  /** Entry `i` is number `i + 1`, links to the entry before it and carries its hash. */
  ghost predicate IsLinked(hash: Hash, es: seq<LedgerEntry>, i: nat)
    requires i < |es|
  {
    && es[i].contents.seqNo == Some(i + 1)
    && es[i].contents.prior == (if i == 0 then None else es[i - 1].entryHash)
    && es[i].entryHash == Some(hash(es[i].contents))
  }

  ghost predicate IsChain(hash: Hash, es: seq<LedgerEntry>) {
    forall i: nat | i < |es| :: IsLinked(hash, es, i)
  }

  ghost predicate IsReadable(lines: seq<Line>) {
    forall i | 0 <= i < |lines| :: !lines[i].Garbled?
  }

  function TipOf(es: seq<LedgerEntry>): Option<string> {
    if es == [] then None else es[|es| - 1].entryHash
  }

  function NextEntry(hash: Hash, es: seq<LedgerEntry>, body: string): LedgerEntry {
    var contents := Contents(Some(|es| + 1), TipOf(es), body);
    LedgerEntry(contents, Some(hash(contents)))
  }

  lemma {:induction false} EntriesConcat(a: seq<Line>, b: seq<Line>)
    ensures EntriesOf(a + b) == EntriesOf(a) + EntriesOf(b)
  {
    if a == [] {
      assert a + b == b;
    } else {
      EntriesConcat(a[1..], b);
      assert (a + b)[0] == a[0] && (a + b)[1..] == a[1..] + b;
    }
  }

  lemma ChainGrows(hash: Hash, es: seq<LedgerEntry>, e: LedgerEntry)
    requires IsChain(hash, es)
    ensures IsChain(hash, es + [e]) <==> CheckEntry(hash, e, |es| + 1, TipOf(es)).Intact?
  {
    var longer := es + [e];
    forall i: nat | i < |es| ensures IsLinked(hash, longer, i) {
      assert IsLinked(hash, es, i);
    }
    assert IsLinked(hash, longer, |es|) <==> CheckEntry(hash, e, |es| + 1, TipOf(es)).Intact?;
    if IsChain(hash, longer) {
      assert IsLinked(hash, longer, |es|);
    }
  }

  lemma ChainPrefix(hash: Hash, es: seq<LedgerEntry>, n: nat)
    requires IsChain(hash, es) && n <= |es|
    ensures IsChain(hash, es[..n])
  {
    forall i: nat | i < n ensures IsLinked(hash, es[..n], i) {
      assert IsLinked(hash, es, i);
    }
  }

  lemma ReadableCons(lines: seq<Line>)
    requires lines != []
    ensures IsReadable(lines) <==> !lines[0].Garbled? && IsReadable(lines[1..])
  {
    if !lines[0].Garbled? && IsReadable(lines[1..]) {
      forall i | 0 <= i < |lines| ensures !lines[i].Garbled? {
        if i > 0 { assert lines[i] == lines[1..][i - 1]; }
      }
    }
  }

  /** An entry that does not continue the chain breaks it for good. */
  lemma BreakIsFinal(hash: Hash, done: seq<LedgerEntry>, e: LedgerEntry, rest: seq<LedgerEntry>)
    requires IsChain(hash, done) && !CheckEntry(hash, e, |done| + 1, TipOf(done)).Intact?
    ensures !IsChain(hash, done + [e] + rest)
  {
    ChainGrows(hash, done, e);
    var all := done + [e] + rest;
    assert all[..|done| + 1] == done + [e];
    if IsChain(hash, all) {
      ChainPrefix(hash, all, |done| + 1);
    }
  }

  lemma {:induction false} CheckContinues(hash: Hash, done: seq<LedgerEntry>, lines: seq<Line>)
    requires IsChain(hash, done)
    ensures var c := CheckLines(hash, lines, |done| + 1, TipOf(done));
            && (c.Intact? <==> IsReadable(lines) && IsChain(hash, done + EntriesOf(lines)))
            && (c.Intact? ==> c.count == |done| + |EntriesOf(lines)|)
    decreases |lines|
  {
    if lines == [] {
      assert done + EntriesOf(lines) == done;
    } else {
      ReadableCons(lines);
      match lines[0]
      case Blank =>
        assert EntriesOf(lines) == EntriesOf(lines[1..]);
        CheckContinues(hash, done, lines[1..]);
      case Garbled =>
      case Record(e) =>
        assert done + EntriesOf(lines) == done + [e] + EntriesOf(lines[1..]);
        if CheckEntry(hash, e, |done| + 1, TipOf(done)).Intact? {
          ChainGrows(hash, done, e);
          CheckContinues(hash, done + [e], lines[1..]);
        } else {
          BreakIsFinal(hash, done, e, EntriesOf(lines[1..]));
        }
    }
  }

  /** The ledger verifies exactly when every line is readable and the entries form a
      chain: numbered from one, each linked to the one before and hashed. */
  lemma VerifiesExactly(hash: Hash, lines: seq<Line>)
    ensures Verify(hash, lines).Intact? <==> IsReadable(lines) && IsChain(hash, EntriesOf(lines))
    ensures Verify(hash, lines).Intact? ==> Verify(hash, lines).count == |EntriesOf(lines)|
  {
    CheckContinues(hash, [], lines);
    assert [] + EntriesOf(lines) == EntriesOf(lines);
  }

  /** What is wrong with a line after the entries `es`, if it does not continue them. */
  ghost predicate IsBreak(hash: Hash, es: seq<LedgerEntry>, line: Line, why: Check) {
    match line
    case Blank => false
    case Garbled => why == Unreadable
    case Record(e) =>
      if e.contents.seqNo != Some(|es| + 1) then why == SequenceBreak
      else if e.contents.prior != (if es == [] then None else es[|es| - 1].entryHash) then why == ChainBreak
      else e.entryHash != Some(hash(e.contents)) && why == Modified
  }

  lemma {:induction false} CheckFindsBreak(hash: Hash, done: seq<LedgerEntry>, lines: seq<Line>) returns (k: nat)
    requires IsChain(hash, done) && !CheckLines(hash, lines, |done| + 1, TipOf(done)).Intact?
    ensures k < |lines| && IsReadable(lines[..k]) && IsChain(hash, done + EntriesOf(lines[..k]))
    ensures IsBreak(hash, done + EntriesOf(lines[..k]), lines[k], CheckLines(hash, lines, |done| + 1, TipOf(done)))
    decreases |lines|
  {
    var more := match lines[0] case Record(e) => done + [e] case _ => done;
    if lines[0].Garbled? || (lines[0].Record? && !CheckEntry(hash, lines[0].entry, |done| + 1, TipOf(done)).Intact?) {
      k := 0;
      assert lines[..0] == [] && done + EntriesOf([]) == done;
    } else {
      if lines[0].Record? { ChainGrows(hash, done, lines[0].entry); }
      var j := CheckFindsBreak(hash, more, lines[1..]);
      k := j + 1;
      assert lines[..k] == [lines[0]] + lines[1..][..j];
      EntriesConcat([lines[0]], lines[1..][..j]);
      assert done + EntriesOf(lines[..k]) == more + EntriesOf(lines[1..][..j]);
    }
  }

  /** A ledger that does not verify is reported for the first line that does not continue
      what comes before it, and for what is wrong with that line. */
  lemma FirstBreakIsReported(hash: Hash, lines: seq<Line>) returns (k: nat)
    requires !Verify(hash, lines).Intact?
    ensures k < |lines| && IsReadable(lines[..k]) && IsChain(hash, EntriesOf(lines[..k]))
    ensures IsBreak(hash, EntriesOf(lines[..k]), lines[k], Verify(hash, lines))
  {
    k := CheckFindsBreak(hash, [], lines);
    assert [] + EntriesOf(lines[..k]) == EntriesOf(lines[..k]);
  }

  // --- the ledger itself ----------------------------------------------------------------

  class ReceiptLedger {
    var lines: seq<Line>
    const hash: Hash

    constructor (hash: Hash)
      ensures this.hash == hash && lines == []
    {
      this.hash := hash;
      lines := [];
    }

    method VerifyLocked() returns (check: Check)
      ensures check == Verify(hash, lines)
    {
      var expected: nat := 1;
      var prior: Option<string> := None;
      for i := 0 to |lines|
        invariant expected > 0
        invariant Verify(hash, lines) == CheckLines(hash, lines[i..], expected, prior)
      {
        assert lines[i..][1..] == lines[i + 1..];
        match lines[i] {
          case Blank => continue;
          case Garbled => return Unreadable;
          case Record(entry) =>
            if entry.contents.seqNo != Some(expected) {
              return SequenceBreak;
            }
            if entry.contents.prior != prior {
              return ChainBreak;
            }
            var recorded := entry.entryHash;
            if recorded != Some(hash(entry.contents)) {
              return Modified;
            }
            prior := recorded;
            expected := expected + 1;
        }
      }
      return Intact(expected - 1);
    }

    method LastEntry() returns (last: Option<LedgerEntry>)
      ensures last == if EntriesOf(lines) == [] then None else Some(EntriesOf(lines)[|EntriesOf(lines)| - 1])
    {
      last := None;
      for i := 0 to |lines|
        invariant last == if EntriesOf(lines[..i]) == [] then None else Some(EntriesOf(lines[..i])[|EntriesOf(lines[..i])| - 1])
      {
        assert lines[..i + 1] == lines[..i] + [lines[i]];
        EntriesConcat(lines[..i], [lines[i]]);
        if lines[i].Record? {
          last := Some(lines[i].entry);
        }
      }
      assert lines[..|lines|] == lines;
    }

    /** Refused, and nothing written, exactly when the ledger does not verify;
        otherwise one entry is added and the ledger verifies with it. */
    method Append(body: string) returns (written: Option<LedgerEntry>)
      modifies this
      ensures written.None? <==> !Verify(hash, old(lines)).Intact?
      ensures written.None? ==> lines == old(lines)
      ensures written.Some? ==>
                && written.value.contents.body == body
                && lines == old(lines) + [Record(written.value)]
                && Verify(hash, lines) == Intact(Verify(hash, old(lines)).count + 1)
    {
      var check := VerifyLocked();
      if !check.Intact? {
        return None;
      }
      ghost var before := EntriesOf(lines);
      VerifiesExactly(hash, lines);
      var previous := LastEntry();
      if previous.Some? {
        assert IsLinked(hash, before, |before| - 1);
      }
      var contents := Contents(if previous.Some? then Some(previous.value.contents.seqNo.value + 1) else Some(1),
                               if previous.Some? then previous.value.entryHash else None, body);
      var entry := LedgerEntry(contents, Some(hash(contents)));
      AppendVerifies(hash, lines, entry);
      lines := lines + [Record(entry)];
      return Some(entry);
    }
  }

  lemma AppendVerifies(hash: Hash, lines: seq<Line>, e: LedgerEntry)
    requires Verify(hash, lines).Intact? && CheckEntry(hash, e, |EntriesOf(lines)| + 1, TipOf(EntriesOf(lines))).Intact?
    ensures Verify(hash, lines + [Record(e)]) == Intact(Verify(hash, lines).count + 1)
  {
    VerifiesExactly(hash, lines);
    ChainGrows(hash, EntriesOf(lines), e);
    EntriesConcat(lines, [Record(e)]);
    assert EntriesOf([Record(e)]) == [e];
    VerifiesExactly(hash, lines + [Record(e)]);
  }

  // --- tamper evidence ---------------------------------------------------------------------

  /** Every prefix of a verifying ledger verifies: cutting off the tail leaves no
      trace in the file itself. */
  lemma PrefixVerifies(hash: Hash, lines: seq<Line>, n: nat)
    requires Verify(hash, lines).Intact? && n <= |lines|
    ensures Verify(hash, lines[..n]).Intact?
  {
    VerifiesExactly(hash, lines);
    VerifiesExactly(hash, lines[..n]);
    EntriesConcat(lines[..n], lines[n..]);
    assert lines == lines[..n] + lines[n..];
    ChainPrefix(hash, EntriesOf(lines), |EntriesOf(lines[..n])|);
    assert EntriesOf(lines[..n]) == EntriesOf(lines)[..|EntriesOf(lines[..n])|];
  }

  lemma ChainHasTip(hash: Hash, es: seq<LedgerEntry>)
    requires IsChain(hash, es)
    ensures TipOf(es).None? <==> es == []
  {
    assert es != [] ==> IsLinked(hash, es, |es| - 1);
  }

  lemma {:induction false} SameTipSameChain(hash: Hash, a: seq<LedgerEntry>, b: seq<LedgerEntry>)
    requires IsInjective(hash) && IsChain(hash, a) && IsChain(hash, b) && TipOf(a) == TipOf(b)
    ensures a == b
    decreases |a|
  {
    ChainHasTip(hash, a);
    ChainHasTip(hash, b);
    if a != [] {
      var m, n := |a| - 1, |b| - 1;
      assert IsLinked(hash, a, m) && IsLinked(hash, b, n);
      assert a[m] == b[n];
      ChainPrefix(hash, a, m);
      ChainPrefix(hash, b, n);
      SameTipSameChain(hash, a[..m], b[..n]);
      assert a == a[..m] + [a[m]] && b == b[..n] + [b[n]];
    }
  }

  /** The tip fixes everything before it: two verifying ledgers with the same tip hash
      hold the same entries in the same order. */
  lemma TipFixesLedger(hash: Hash, a: seq<Line>, b: seq<Line>)
    requires IsInjective(hash) && Verify(hash, a).Intact? && Verify(hash, b).Intact?
    ensures TipOf(EntriesOf(a)) == TipOf(EntriesOf(b)) <==> EntriesOf(a) == EntriesOf(b)
  {
    VerifiesExactly(hash, a);
    VerifiesExactly(hash, b);
    if TipOf(EntriesOf(a)) == TipOf(EntriesOf(b)) {
      SameTipSameChain(hash, EntriesOf(a), EntriesOf(b));
    }
  }

  /** Any edit, removal, insertion or reordering that leaves the last entry as it was
      makes verification fail. */
  lemma TamperingIsDetected(hash: Hash, before: seq<Line>, after: seq<Line>)
    requires IsInjective(hash) && Verify(hash, before).Intact?
    requires EntriesOf(after) != EntriesOf(before) && TipOf(EntriesOf(after)) == TipOf(EntriesOf(before))
    ensures !Verify(hash, after).Intact?
  {
    if Verify(hash, after).Intact? {
      TipFixesLedger(hash, before, after);
    }
  }
}
