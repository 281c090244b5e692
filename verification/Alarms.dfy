/** The one false alarm the check cannot avoid, and what keeps an entry passed. */
module Alarms {
  import opened Basics
  import opened Clock
  import opened Versions
  import opened Records
  import opened Device

  /** A delete and a manifest that still lists the record as live. */
  predicate DeleteAndManifest(d: Device, tomb: Envelope, listing: Envelope, entry: Entry) {
    && Opens(tomb) && tomb.vault == d.vault && tomb.deleted && Synced(tomb.id.kind)
    && Opens(listing) && listing.vault == d.vault && listing.blob.payload.Listing?
    && listing.id == ManifestId(listing.blob.payload.device) && !listing.deleted
    && entry in listing.blob.payload.entries && entry.id == tomb.id && !entry.deleted
    && (listing.id in d.rows ==>
          RowVersion(d.rows[listing.id]) == EnvelopeVersion(listing)
          && d.rows[listing.id].payload == listing.blob.payload)
  }

  /** A device that joins after a record was deleted, while some manifest still
      lists the record, finds it missing: it skipped the delete. The server held
      nothing back. */
  lemma JoiningAfterDeleteAlarms(d: Device, tomb: Envelope, listing: Envelope, entry: Entry, b: Batch)
    requires DeleteAndManifest(d, tomb, listing, entry)
    requires tomb.id !in d.rows && tomb.id !in d.superseded && b.device == d
    ensures var after := ApplyAll(b, [tomb, listing]).device;
            && listing.id in after.rows && after.rows[listing.id].payload == listing.blob.payload
            && CheckEntry(after.rows, after.superseded, entry) == Some(Missing)
            && DeleteAndManifest(after, tomb, listing, entry)
            && tomb.id !in after.rows && tomb.id !in after.superseded
  {
    assert [tomb, listing][..1] == [tomb] && [tomb][..0] == [];
    assert ApplyAll(b, [tomb]) == ApplyStep(b, tomb);
    assert ApplyAll(b, [tomb, listing]) == ApplyStep(ApplyStep(b, tomb), listing);
  }

  /** Pulling everything again, as the check does before the alarm goes up, does
      not help, however often. */
  lemma {:induction false} PullingAgainDoesNotHelp(d: Device, tomb: Envelope, listing: Envelope, entry: Entry,
                                                   b: Batch, times: nat)
    requires DeleteAndManifest(d, tomb, listing, entry)
    requires tomb.id !in d.rows && tomb.id !in d.superseded && b.device == d && times > 0
    ensures var after := Again(b, [tomb, listing], times).device;
            CheckEntry(after.rows, after.superseded, entry) == Some(Missing)
    decreases times
  {
    JoiningAfterDeleteAlarms(d, tomb, listing, entry, b);
    var next := ApplyAll(b, [tomb, listing]);
    if times > 1 {
      PullingAgainDoesNotHelp(next.device, tomb, listing, entry, next, times - 1);
    } else {
      assert Again(next, [tomb, listing], 0) == next;
    }
  }

  ghost function Again(b: Batch, es: seq<Envelope>, times: nat): Batch
    decreases times
  {
    if times == 0 then b else Again(ApplyAll(b, es), es, times - 1)
  }

  /** When a local transaction keeps accounted for what was: unless it writes that
      very record live, under a clock older than the entry's. */
  lemma EditKeepsPassed(d: Device, changes: map<Id, Change>, now: u64, entry: Entry)
    requires CheckEntry(d.rows, d.superseded, entry).None?
    ensures var after := Edit(d, changes, now);
            CheckEntry(after.rows, after.superseded, entry).None?
            <==> || entry.id !in changes || changes[entry.id].Tombstone?
                 || !Less(Tick(d.clock, now), entry.clock) || !HasTable(entry.id.kind)
                 || (entry.id in d.superseded && !Less(d.superseded[entry.id], entry.clock))
  {
  }

  /** So an edit of a live row that is newer than the row it edits keeps it. */
  lemma NewerEditKeepsPassed(d: Device, changes: map<Id, Change>, now: u64, entry: Entry)
    requires CheckEntry(d.rows, d.superseded, entry).None?
    requires entry.id in d.rows && !d.rows[entry.id].deleted
    requires Less(d.rows[entry.id].clock, Tick(d.clock, now))
    ensures var after := Edit(d, changes, now);
            CheckEntry(after.rows, after.superseded, entry).None?
  {
    LessIsTicks(d.rows[entry.id].clock, entry.clock);
    EditKeepsPassed(d, changes, now, entry);
  }
}
