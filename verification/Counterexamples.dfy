/** The promises of the collector contract that fail, each at one concrete run:
    the other halves of the exact conditions stated beside them. */
module Counterexamples {
  import opened Options
  import opened Wire
  import opened Judge
  import opened JudgeTheory
  import opened JudgeLimits
  import P = Producer
  import opened ProducerTheory
  import DockerRows
  import Bazarr

  // ── a small accepted run ──────────────────────────────────────────────

  /** A boot id that is hexadecimal where a UUID is, and not the nil one. */
  function BootId(): string {
    seq(36, i requires 0 <= i < 36 => if i == 8 || i == 13 || i == 18 || i == 23 then '-' else '1')
  }

  /** Lawful surroundings: every stamp reads one, a run costs a wall millisecond. */
  function Surroundings(document: Json): P.Source {
    P.Source(Some(BootId()), Some("b"), "sha256:0", 0, path => P.Read(document),
             n => Finite(1.0), (Finite(0.0), Finite(1.0)))
  }

  function Empty(): string -> P.Answer {
    c => P.Rows([], "volume")
  }

  const ASKED: seq<string> := ["volumes"]
  const GENERATIONS: map<string, nat> := map["volumes" := 5]
  const COMMITTED: Record := ToWire(P.Commit("volumes", 5, 0))

  lemma BootIdLawful()
    ensures BootIdOk(Str(BootId()))
  {
    assert BootId()[0] != NIL_UUID[0];
  }

  /** Nothing but what the documents hold can get such a run refused. */
  lemma SurroundingsLawful(document: Json, order: seq<string>, answers: string -> P.Answer)
    ensures DockerRows.RunLawful(Surroundings(document), order, answers)
  {
    BootIdLawful();
    assert "sha256:" <= "sha256:0";
  }

  /** A collection asked for and found empty: begin, its commit, end. */
  function Stream(): seq<Record> {
    var src := Surroundings(Null);
    [ToWire(P.BeginOf(src, GENERATIONS)), COMMITTED, ToWire(P.EndOf(src))]
  }

  lemma StreamBody()
    ensures P.Body(Surroundings(Null), ASKED, Empty(), GENERATIONS) == [P.Commit("volumes", 5, 0)]
  {
    var src := Surroundings(Null);
    assert ASKED[..0] == [];
    assert P.Objects(src, "volumes", "volume", [], 0) == [];
    assert P.Section(src, "volumes", P.Rows([], "volume"), 5, 0) == [P.Commit("volumes", 5, 0)];
  }

  lemma StreamIsWhole()
    ensures P.Complete(Surroundings(Null), ASKED, Empty()) && Request(ASKED, GENERATIONS)
    ensures Whole(Surroundings(Null), ASKED, Empty(), GENERATIONS) == Stream()
  {
    StreamBody();
    assert ASKED[0] == "volumes";
  }

  lemma StreamAccepted()
    ensures Accepts(Stream(), Some(GENERATIONS))
  {
    StreamIsWhole();
    EmptyLawful();
    CompletedVerdict(Surroundings(Null), ASKED, Empty(), GENERATIONS);
  }

  lemma EmptyLawful()
    ensures ReadingsLawful(Surroundings(Null), ASKED, Empty())
  {
    SurroundingsLawful(Null, ASKED, Empty());
  }

  lemma StreamHeader()
    ensures Of(Stream(), "end") == [Stream()[2]]
    ensures Opened(Stream()) == map["volumes" := Int(5)]
  {
    var src := Surroundings(Null);
    StreamIsWhole();
    WholeOf(src, ASKED, Empty(), GENERATIONS);
    BeginOpens();
  }

  lemma BeginOpens()
    ensures GenerationsOf(ToWire(P.BeginOf(Surroundings(Null), GENERATIONS)))
      == Some(map["volumes" := Int(5)])
  {
    assert "volumes" in GENERATIONS;
    WholeHeader(Surroundings(Null), GENERATIONS);
    assert Issue(GENERATIONS).members == map["volumes" := Int(5)];
  }

  // ── what the judge lets by ────────────────────────────────────────────

  /** An object of a collection nobody asked for passes the judge. */
  lemma OrphanPasses()
    ensures var stray := ToWire(P.Object("networks", "network", P.Row("n", map[]), Finite(1.0)));
      Orphan(Stream(), stray) && Accepts(Stream() + [stray], Some(GENERATIONS))
  {
    var stray := ToWire(P.Object("networks", "network", P.Row("n", map[]), Finite(1.0)));
    StreamAccepted();
    StreamHeader();
    ObjectReading("networks", "network", P.Row("n", map[]), Finite(1.0));
    WireHead(P.Object("networks", "network", P.Row("n", map[]), Finite(1.0)));
    assert Numeric(Number(Finite(1.0))) == Some(1.0);
    NoObjects();
    OrphanVerdict(Stream(), Some(GENERATIONS), stray);
  }

  lemma NoObjects()
    ensures In(Stream(), "object", Named("networks")) == []
  {
    StreamIsWhole();
    var src := Surroundings(Null);
    WholeIn(src, ASKED, Empty(), GENERATIONS, "object", Named("networks"));
    BodyOwners(src, ASKED, Empty(), GENERATIONS);
    InNone(P.Body(src, ASKED, Empty(), GENERATIONS), "object", Named("networks"));
  }

  /** A commit that echoes 5.0 where 5 was issued passes too. */
  lemma EchoPasses()
    ensures var echoed := COMMITTED["generation" := Json.Float(Finite(5.0))];
      Accepts(Stream()[1 := echoed], Some(GENERATIONS))
  {
    StreamAccepted();
    StreamHeader();
    WireHead(P.Commit("volumes", 5, 0));
    EchoVerdict(Stream(), Some(GENERATIONS), 1, Json.Float(Finite(5.0)));
  }

  // ── completed runs that are refused ───────────────────────────────────

  /** The served table as the docker collector has it, its containers too. */
  function Served(containers: Json -> Option<seq<P.Row>>): P.Catalogue {
    P.Catalogue(map["containers" := P.Service("/containers/json?all=1", containers, "container"),
                    "volumes" := P.Service("/volumes", VolumeRows(), "volume"),
                    "networks" := P.Service("/networks", NetworkRows(), "network")],
                "this collector serves containers, volumes and networks only")
  }

  function VolumeRows(): Json -> Option<seq<P.Row>> {
    d => DockerRows.Rows(DockerRows.Volumes, d)
  }

  function NetworkRows(): Json -> Option<seq<P.Row>> {
    d => DockerRows.Rows(DockerRows.Networks, d)
  }

  /** A volume whose driver is not null but holds one. */
  function Volume(): Json {
    Dict(map["Name" := Str("v"), "Driver" := Dict(map["x" := Null])])
  }

  function VolumesDocument(): Json {
    Dict(map["Volumes" := List([Volume()])])
  }

  lemma VolumeNotClean()
    ensures DockerRows.Rows(DockerRows.Volumes, VolumesDocument()).Some?
    ensures !DockerRows.CleanDocument(DockerRows.Volumes, VolumesDocument())
  {
    assert [Volume()][..0] == [];
    var driver := Dict(map["x" := Null]);
    assert HasNull(driver) by {
      assert "x" in driver.members && HasNull(driver.members["x"]);
    }
    assert DockerRows.VolumePassed(Volume())[0] == DockerRows.Passed("Driver", Some(driver));
    assert !DockerRows.CleanEntry(DockerRows.Volumes, Volume());
  }

  lemma VolumesAnswered(containers: Json -> Option<seq<P.Row>>)
    ensures var src, served := Surroundings(VolumesDocument()), Served(containers);
      && "volumes" in served.services && DockerRows.Serves(served.services["volumes"], DockerRows.Volumes)
      && !P.DockerAnswer(src, served, "volumes").Broken?
      && !DockerRows.AnsweredClean(src, served, map["volumes" := DockerRows.Volumes], "volumes")
  {
    VolumeNotClean();
  }

  /** docker completes the run, which exits 0, and the judge refuses its stream. */
  lemma NestedNullRefused(containers: Json -> Option<seq<P.Row>>)
    ensures var src := Surroundings(VolumesDocument());
      var answers := P.DockerAnswers(src, Served(containers));
      && P.Complete(src, ASKED, answers) && Request(ASKED, GENERATIONS)
      && DockerRows.RunLawful(src, ASKED, answers)
      && !Accepts(Whole(src, ASKED, answers, GENERATIONS), Some(GENERATIONS))
  {
    var src := Surroundings(VolumesDocument());
    VolumesAnswered(containers);
    SurroundingsLawful(VolumesDocument(), ASKED, P.DockerAnswers(src, Served(containers)));
    VolumesRefused(src, Served(containers), map["volumes" := DockerRows.Volumes]);
  }

  lemma VolumesRefused(src: P.Source, served: P.Catalogue, tables: map<string, DockerRows.Table>)
    requires src.bootId.Some? && src.batch.Some? && !P.DockerAnswer(src, served, "volumes").Broken?
    requires "volumes" in tables && !DockerRows.AnsweredClean(src, served, tables, "volumes")
    requires "volumes" in served.services && DockerRows.Serves(served.services["volumes"], tables["volumes"])
    ensures P.Complete(src, ASKED, P.DockerAnswers(src, served)) && Request(ASKED, GENERATIONS)
    ensures !Accepts(Whole(src, ASKED, P.DockerAnswers(src, served), GENERATIONS), Some(GENERATIONS))
  {
    VolumesComplete(src, served, tables);
    DockerRows.DockerRunVerdict(src, served, tables, ASKED, GENERATIONS);
  }

  lemma VolumesComplete(src: P.Source, served: P.Catalogue, tables: map<string, DockerRows.Table>)
    requires src.bootId.Some? && src.batch.Some? && !P.DockerAnswer(src, served, "volumes").Broken?
    requires "volumes" in tables && !DockerRows.AnsweredClean(src, served, tables, "volumes")
    ensures P.Complete(src, ASKED, P.DockerAnswers(src, served)) && Request(ASKED, GENERATIONS)
    ensures !DockerRows.DocumentsClean(src, served, tables, ASKED)
  {
    assert ASKED[0] == "volumes";
  }

  /** A status document whose version is not null but holds one. */
  function StatusDocument(): Json {
    Dict(map["data" := Dict(map["bazarr_version" := Dict(map["x" := Null])])])
  }

  function Got(): Bazarr.Reading {
    Bazarr.Reading([], "", Some(StatusDocument()), None)
  }

  lemma VersionNotClean()
    ensures !Bazarr.CleanReading(Got())
  {
    var version := Dict(map["x" := Null]);
    assert HasNull(version) by {
      assert "x" in version.members && HasNull(version.members["x"]);
    }
    assert "x" in version.members && version.members != map[];
    var data := Bazarr.Member(StatusDocument(), "data");
    assert "bazarr_version" in data.members && data.members != map[];
    assert Bazarr.Member(data, Bazarr.Lifts()[0].member) == version;
    Bazarr.CleanReadingIff(Got());
    assert !Bazarr.CleanLift(Bazarr.Member(data, Bazarr.Lifts()[0].member));
  }

  function Instance(): Bazarr.Serving {
    Bazarr.Serving("instance", "this collector serves instance only", "bazarr-instance", "bazarr")
  }

  /** So with bazarr, of a version it lifts whole. */
  lemma LiftedNullRefused(str: Json -> string, details: Bazarr.Details)
    ensures var src, order, issued := Surroundings(Null), ["instance"], map["instance" := 5];
      var answers := Bazarr.BazarrAnswers(str, Bazarr.Served(Got()), details, Instance());
      && P.Complete(src, order, answers) && Request(order, issued)
      && DockerRows.RunLawful(src, order, answers)
      && !Accepts(Whole(src, order, answers, issued), Some(issued))
  {
    var src, order := Surroundings(Null), ["instance"];
    var answers := Bazarr.BazarrAnswers(str, Bazarr.Served(Got()), details, Instance());
    VersionNotClean();
    SurroundingsLawful(Null, order, answers);
    Bazarr.BazarrRunVerdict(src, str, Bazarr.Served(Got()), details, Instance(), order, map["instance" := 5]);
    assert order[0] == "instance";
  }
}
