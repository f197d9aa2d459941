/** A whole replay of bazarr's collector, from the issued map to the verdict. */
module BazarrReplay {
  import opened Options
  import opened Wire
  import opened Judge
  import opened Sorting
  import P = Producer
  import opened ProducerTheory
  import RequestTheory
  import DockerRows
  import Bazarr

  /** Its exit status and the verdict on what it wrote: a bad exit is never
      accepted; a good one is accepted exactly when the clocks and the header are
      lawful and no member lifted from the status document has a null inside. */
  method Replay(issued: map<string, nat>, src: P.Source, str: Json -> string, instance: Bazarr.Instance,
                details: Bazarr.Details, serving: Bazarr.Serving, takes: nat -> bool)
    returns (code: P.Exit, problems: seq<Problem>)
    requires RequestTheory.Askable(issued)
    ensures TotalOrder(Below)
    ensures var order := Sorted(Below, issued.Keys);
      var answers := Bazarr.BazarrAnswers(str, instance, details, serving);
      && (code != P.EXIT_OK ==> problems != [])
      && (code == P.EXIT_OK ==> P.Complete(src, order, answers))
      && (code == P.EXIT_OK ==>
            (problems == [] <==>
               DockerRows.RunLawful(src, order, answers)
               && (serving.collection in issued && instance.Served? ==> Bazarr.CleanReading(instance.got))))
  {
    var order, generations := RequestTheory.Delivered(issued);
    code, problems := CollectAndJudge(src, str, instance, details, serving, order, generations, takes);
    assert serving.collection in order <==> serving.collection in issued;
  }

  method CollectAndJudge(src: P.Source, str: Json -> string, instance: Bazarr.Instance,
                         details: Bazarr.Details, serving: Bazarr.Serving, order: seq<string>,
                         generations: map<string, nat>, takes: nat -> bool)
    returns (code: P.Exit, problems: seq<Problem>)
    requires Request(order, generations)
    ensures var answers := Bazarr.BazarrAnswers(str, instance, details, serving);
      && (code != P.EXIT_OK ==> problems != [])
      && (code == P.EXIT_OK ==> P.Complete(src, order, answers))
      && (code == P.EXIT_OK ==>
            (problems == [] <==>
               DockerRows.RunLawful(src, order, answers)
               && (serving.collection in order && instance.Served? ==> Bazarr.CleanReading(instance.got))))
  {
    var written;
    ghost var answers := Bazarr.BazarrAnswers(str, instance, details, serving);
    code, written := Bazarr.Collect(src, str, instance, details, serving, order, generations, takes);
    problems := CheckStream(OnWire(written), Some(generations));
    if code == P.EXIT_OK {
      Bazarr.BazarrRunVerdict(src, str, instance, details, serving, order, generations);
    } else {
      TruncatedRefused(src, order, answers, generations, written, Some(generations));
    }
  }
}
