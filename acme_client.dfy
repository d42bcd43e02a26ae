/**
 * The `AcmeClient` base charm: a provider of the TLS-certificates relation that answers each
 * certificate creation request by running the `lego` ACME client in the workload container and
 * publishing the certificate chain lego writes.
 *
 * The framework, the container and the CSR parser are outside the model; what the handler learns
 * from them arrives as an `Observations` value, and what it does to them is recorded, in order,
 * as `Effect`s in the charm's trace.
 */
module AcmeClientLib {
  import opened Wrappers
  import Utf8
  import Builtins

  const DefaultServer: string := "https://acme-staging-v02.api.letsencrypt.org/directory"
  const CsrPath: string := "/tmp/csr.pem"
  const CertsPath: string := "/tmp/.lego/certificates/"
  const ExecTimeout: nat := 300
  const ExecWorkingDir: string := "/tmp"
  /** The blank line lego leaves between the PEM blocks of a bundle. */
  const ChainSeparator: string := "\n\n"
  const WaitingForContainer: string := "Waiting for container to be ready"
  const ErrorGettingCertificate: string := "Error getting certificate. Check logs for details"

  /** The unit's workload status as the ops framework reports it. */
  datatype Status =
    | Unknown
    | Active(message: string)
    | Waiting(message: string)
    | Blocked(message: string)

  /** A common-name attribute value: text, or raw bytes for some ASN.1 string types. */
  datatype AttributeValue = Text(text: string) | Bytes(raw: seq<Utf8.byte>)

  /** How waiting for the lego process ended. */
  datatype ExecResult =
    | Completed(stdout: string, stderr: string)
    | ExecError(exitCode: int, stderr: string)

  /** The arguments of `set_relation_certificate`. */
  datatype Publication = Publication(
    certificate: string,
    certificateSigningRequest: string,
    ca: string,
    chain: seq<string>,
    relationId: int)

  /** What the handler does to the world outside the charm, in the order it does it. */
  datatype Effect =
    | Push(path: string, source: seq<Utf8.byte>, makeDirs: bool)
    | Exec(command: seq<string>, timeout: nat, workingDir: string, environment: Option<map<string, string>>)
    | Pull(path: string)
    | Publish(publication: Publication)

  /**
   * What the handler learns from the framework, the container and the CSR parser:
   * leadership, container reachability, the CSR's common-name attributes (None when the PEM
   * does not load), the outcome of waiting for lego, and the text of the file it pulls.
   */
  datatype Observations = Observations(
    isLeader: bool,
    canConnect: bool,
    commonNames: Option<seq<AttributeValue>>,
    execResult: ExecResult,
    pulledText: string)

  /** `_cmd`: the lego invocation. */
  function Cmd(email: string, csrPath: string, server: string, plugin: string): (argv: seq<string>)
    ensures |argv| == 11
    ensures argv[0] == "lego" && argv[1] == "--email" && argv[3] == "--accept-tos" && argv[4] == "--csr"
    ensures argv[6] == "--server" && argv[8] == "--dns" && argv[10] == "run"
    ensures argv[2] == email && argv[5] == csrPath && argv[7] == server && argv[9] == plugin
  {
    ["lego", "--email", email, "--accept-tos", "--csr", csrPath, "--server", server, "--dns", plugin, "run"]
  }

  /** Distinct configurations give distinct command vectors: lego sees exactly what was configured. */
  lemma CmdInjective(e1: string, c1: string, s1: string, p1: string, e2: string, c2: string, s2: string, p2: string)
    requires Cmd(e1, c1, s1, p1) == Cmd(e2, c2, s2, p2)
    ensures e1 == e2 && c1 == c2 && s1 == s2 && p1 == p2
  {
  }

  /** Where lego leaves the bundle for `subject`. */
  function CertificatePath(certsPath: string, subject: string): (path: string)
    ensures |path| == |certsPath| + |subject| + 4
    ensures path[..|certsPath|] == certsPath
    ensures path[|certsPath|..|path| - 4] == subject
    ensures path[|path| - 4..] == ".crt"
  {
    certsPath + subject + ".crt"
  }

  /** Within one directory, the path determines the subject. */
  lemma CertificatePathInjective(certsPath: string, a: string, b: string)
    requires CertificatePath(certsPath, a) == CertificatePath(certsPath, b)
    ensures a == b
  {
  }

  /** A common-name value as text: bytes are decoded as UTF-8, text is kept; None when decoding fails. */
  function NormaliseSubject(v: AttributeValue): (r: Option<string>)
    ensures v.Text? ==> r == Some(v.text)
    ensures v.Bytes? && r.Some? ==> Utf8.Encode(r.value) == v.raw
    ensures v.Bytes? && r.None? ==> forall s :: Utf8.Encode(s) != v.raw
  {
    match v
    case Text(t) => Some(t)
    case Bytes(b) =>
      Utf8.DecodeFailsOnlyOnNonText(b);
      if Utf8.Decode(b).Some? then Utf8.EncodeDecode(b); Utf8.Decode(b) else None
  }

  /** A bytes value and a text value that encode the same name give the same subject. */
  lemma SubjectIndependentOfEncoding(s: string)
    ensures NormaliseSubject(Bytes(Utf8.Encode(s))) == NormaliseSubject(Text(s)) == Some(s)
  {
    Utf8.DecodeEncode(s);
  }

  /**
   * The subject of the request: the first common-name value, as text. None when the CSR does not
   * load, has no common-name attribute, or its value is bytes that are not UTF-8.
   */
  function SubjectOf(commonNames: Option<seq<AttributeValue>>): (r: Option<string>)
    ensures commonNames.None? ==> r.None?
    ensures commonNames == Some([]) ==> r.None?
    ensures commonNames.Some? && |commonNames.value| > 0 ==> r == NormaliseSubject(commonNames.value[0])
  {
    match commonNames
    case None => None
    case Some(values) => if |values| == 0 then None else NormaliseSubject(values[0])
  }

  /**
   * The publication built from the pulled bundle: the bundle split at blank lines, the first piece
   * as the certificate, the last as the CA, and the pieces in reverse order as the chain.
   */
  function ChainPublication(bundle: string, csr: string, relationId: int): (r: Publication)
    ensures |r.chain| >= 1
    ensures r.ca == r.chain[0] && r.certificate == r.chain[|r.chain| - 1]
    ensures Builtins.Splittable(Builtins.Reversed(r.chain), ChainSeparator)
    ensures Builtins.Join(Builtins.Reversed(r.chain), ChainSeparator) == bundle
    ensures forall k :: 0 <= k < |r.chain| ==> Builtins.NoOccurrence(r.chain[k], ChainSeparator)
    ensures r.certificateSigningRequest == csr && r.relationId == relationId
  {
    var certs := Builtins.Split(bundle, ChainSeparator);
    Builtins.SplitShape(bundle, ChainSeparator);
    Builtins.JoinSplit(bundle, ChainSeparator);
    Builtins.ReversedTwice(certs);
    Publication(certs[0], csr, certs[|certs| - 1], Builtins.Reversed(certs), relationId)
  }

  /**
   * A bundle of PEM blocks joined by blank lines, none holding a blank line and none but the last
   * ending in a newline (an empty block ends cleanly), is published block for block: N blocks give a chain of N certificates.
   */
  lemma ChainOfBlocks(blocks: seq<string>, csr: string, relationId: int)
    requires |blocks| >= 1
    requires forall k :: 0 <= k < |blocks| ==> Builtins.NoOccurrence(blocks[k], ChainSeparator)
    requires forall k :: 0 <= k < |blocks| - 1 ==> (blocks[k] == [] || blocks[k][|blocks[k]| - 1] != '\n')
    ensures ChainPublication(Builtins.Join(blocks, ChainSeparator), csr, relationId)
         == Publication(blocks[0], csr, blocks[|blocks| - 1], Builtins.Reversed(blocks), relationId)
  {
    forall k | 0 <= k < |blocks| - 1 ensures Builtins.EndsCleanly(blocks[k], ChainSeparator) {
      Builtins.BlankLineEndsCleanly(blocks[k]);
    }
    Builtins.SplitJoin(blocks, ChainSeparator);
  }

  /** A leaf and a CA certificate separated by a blank line: chain is `[ca, leaf]`. */
  lemma LeafAndCaScenario(leaf: string, ca: string, csr: string, relationId: int)
    requires Builtins.NoOccurrence(leaf, ChainSeparator) && Builtins.NoOccurrence(ca, ChainSeparator)
    requires leaf == [] || leaf[|leaf| - 1] != '\n'
    ensures ChainPublication(leaf + ChainSeparator + ca, csr, relationId)
         == Publication(leaf, csr, ca, [ca, leaf], relationId)
  {
    var blocks := [leaf, ca];
    assert Builtins.Join(blocks, ChainSeparator) == leaf + ChainSeparator + ca;
    ChainOfBlocks(blocks, csr, relationId);
  }

  /** An empty bundle is published as one empty certificate that is its own CA. */
  lemma EmptyBundle(csr: string, relationId: int)
    ensures ChainPublication("", csr, relationId) == Publication("", csr, "", [""], relationId)
  {
  }

  /** The certificate creation request event; `Defer` asks the framework to deliver it again. */
  class CertificateCreationRequestEvent {
    const certificateSigningRequest: string
    const relationId: int
    var deferred: bool

    constructor (certificateSigningRequest: string, relationId: int)
      ensures this.certificateSigningRequest == certificateSigningRequest
      ensures this.relationId == relationId
      ensures !deferred
    {
      this.certificateSigningRequest := certificateSigningRequest;
      this.relationId := relationId;
      deferred := false;
    }

    method Defer()
      modifies this
      ensures deferred
    {
      deferred := true;
    }
  }

  /**
   * The charm. `email`, `plugin` and `pluginConfig` are what a concrete charm supplies for the
   * abstract properties; `server` starts as the staging directory and a subclass may reassign it.
   */
  class AcmeClient {
    const email: string
    const plugin: string
    const pluginConfig: Option<map<string, string>>
    const csrPath: string
    const certsPath: string
    var server: string
    var status: Status
    var trace: seq<Effect>

    constructor (email: string, plugin: string, pluginConfig: Option<map<string, string>>)
      ensures this.email == email && this.plugin == plugin && this.pluginConfig == pluginConfig
      ensures server == DefaultServer && csrPath == CsrPath && certsPath == CertsPath
      ensures status == Unknown && trace == []
    {
      this.email := email;
      this.plugin := plugin;
      this.pluginConfig := pluginConfig;
      csrPath := CsrPath;
      certsPath := CertsPath;
      server := DefaultServer;
      status := Unknown;
      trace := [];
    }

    /** `_on_acme_client_pebble_ready`. */
    method OnPebbleReady()
      modifies this`status
      ensures status == Active("")
    {
      status := Active("");
    }

    /** `_on_certificate_creation_request`. */
    method OnCertificateCreationRequest(event: CertificateCreationRequestEvent, obs: Observations)
      modifies this`status, this`trace, event
      // not the leader: nothing at all happens
      ensures !obs.isLeader ==>
        status == old(status) && trace == old(trace) && event.deferred == old(event.deferred)
      // container unreachable: waiting status, event deferred, no effect
      ensures obs.isLeader && !obs.canConnect ==>
        status == Waiting(WaitingForContainer) && event.deferred && trace == old(trace)
      // from here on the event is never deferred
      ensures obs.isLeader && obs.canConnect ==> event.deferred == old(event.deferred)
      // CSR unusable: the request is dropped silently
      ensures obs.isLeader && obs.canConnect && SubjectOf(obs.commonNames).None? ==>
        status == old(status) && trace == old(trace)
      // lego fails: blocked, after pushing the CSR and running lego, and nothing is pulled or published
      ensures obs.isLeader && obs.canConnect && SubjectOf(obs.commonNames).Some? && obs.execResult.ExecError? ==>
        && status == Blocked(ErrorGettingCertificate)
        && trace == old(trace) + [
             Push(csrPath, Utf8.Encode(event.certificateSigningRequest), true),
             Exec(Cmd(email, csrPath, server, plugin), ExecTimeout, ExecWorkingDir, pluginConfig)]
      // lego succeeds: push, exec, pull, publish, status untouched
      ensures obs.isLeader && obs.canConnect && SubjectOf(obs.commonNames).Some? && obs.execResult.Completed? ==>
        && status == old(status)
        && trace == old(trace) + [
             Push(csrPath, Utf8.Encode(event.certificateSigningRequest), true),
             Exec(Cmd(email, csrPath, server, plugin), ExecTimeout, ExecWorkingDir, pluginConfig),
             Pull(CertificatePath(certsPath, SubjectOf(obs.commonNames).value)),
             Publish(ChainPublication(obs.pulledText, event.certificateSigningRequest, event.relationId))]
    {
      if !obs.isLeader {
        return;
      }
      if !obs.canConnect {
        status := Waiting(WaitingForContainer);
        event.Defer();
        return;
      }
      var subject := SubjectOf(obs.commonNames);
      if subject.None? {
        return;
      }
      trace := trace + [Push(csrPath, Utf8.Encode(event.certificateSigningRequest), true)];
      trace := trace + [Exec(Cmd(email, csrPath, server, plugin), ExecTimeout, ExecWorkingDir, pluginConfig)];
      if obs.execResult.ExecError? {
        status := Blocked(ErrorGettingCertificate);
        return;
      }
      trace := trace + [Pull(CertificatePath(certsPath, subject.value))];
      var pieces := Builtins.Split(obs.pulledText, ChainSeparator);
      var certs: seq<string> := [];
      for i := 0 to |pieces|
        invariant certs == pieces[..i]
      {
        certs := certs + [pieces[i]];
      }
      assert certs == pieces;
      trace := trace + [Publish(Publication(
        certs[0], event.certificateSigningRequest, certs[|certs| - 1], Builtins.Reversed(certs), event.relationId))];
    }
  }
}
