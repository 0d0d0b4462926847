/** From a sender's source to a published file. */
module EndToEnd {
  import opened PayloadAgreement
  import opened Publication

  /**
   Whatever was lost, cut off or failed in between: when a receiver that got its receipt
   publishes its staged bytes under the offer's manifest, the new file is the sender's source.
   */
  lemma {:induction false} PublishedFileIsSource(x: Exchange, files: Files, call: Call)
    requires Happened(x) && x.receiving.Delivered?
    requires call.m == x.receiving.offer.manifest && call.staged == x.staged
    requires Admissible(x.o.hash, files, call) && call.r.Published?
    ensures call.m == x.o.offer.manifest && call.m.filename !in files
    ensures var after := AfterCall(files, call);
            call.m.filename in after && after[call.m.filename] == x.source
  {
    hide Happened, VerifiedBy;
    CallsAgree(x);
  }
}
