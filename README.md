# acme_client: a Dafny model

This project models the `AcmeClient` base charm of the lego operator. The charm provides the
TLS-certificates relation. When a requirer asks for a certificate, the leader unit does four
things in order. It pushes the CSR into the workload container, runs the `lego` ACME client
there, pulls the certificate bundle that lego writes for the CSR's common name, and publishes
that bundle split into a certificate, a CA and a chain.

Files:

- `wrappers.dfy`: `Option`.
- `utf8.dfy`: strict UTF-8, the codec behind Python's `str.encode()` and `bytes.decode()`.
  The charm uses it to push the CSR and to read a bytes common name.
- `builtins.dfy`: Python's `str.split(sep)` for a non-empty separator, `sep.join`, and
  `list(reversed(...))`.
- `acme_client.dfy`: the charm's constants, `_cmd`, subject normalisation, chain assembly, and
  the two event handlers. The handlers are methods of a class `AcmeClient`, which has fields
  `status` and `trace`. The event is a class `CertificateCreationRequestEvent`, which has a
  field `deferred`.

The handler takes as inputs the facts it gets from outside, bundled in an `Observations` value:

- leadership;
- whether the container can be reached;
- the CSR's common-name attributes (`None` when the PEM does not load);
- how waiting for lego ended;
- the text of the pulled file.

The handler records what it does to the outside world as a sequence of `Effect`s (`Push`,
`Exec`, `Pull`, `Publish`), each with its arguments.

These behaviours of the code are easy to miss:

- The code has no "missing artifact" check. An empty bundle is published as certificate `""`,
  CA `""` and chain `[""]` (`EmptyBundle`).
- On success the handler does not set an active status. The status stays as it was.
- The chain is always the reversed list of pieces, whatever their order on disk.
- Only `ExecError` is caught. A timeout or any other exception escapes the handler (see Left out).
- `_on_acme_client_pebble_ready` always sets `ActiveStatus()`. The unit test at
  tests/unit/test_charm.py:72-79 expects "Email address was not provided." instead. That test
  does not match this version of the library (LIBPATCH 1); the model follows the library.

## Model

| member | source | states |
|---|---|---|
| `Utf8.Encode` | tests/integration/acme-tester/lib/charms/acme_client_operator/v0/acme_client.py:121 | `str.encode()`: the encoding of a string has between one and four bytes per character |
| `Utf8.Decode` | tests/integration/acme-tester/lib/charms/acme_client_operator/v0/acme_client.py:113 | `bytes.decode()` under strict UTF-8: a decoded text never has more characters than the input has bytes |
| `Utf8.DecodeEncode` | tests/integration/acme-tester/lib/charms/acme_client_operator/v0/acme_client.py:113 | decoding the encoding of any text gives it back |
| `Utf8.EncodeDecode` | tests/integration/acme-tester/lib/charms/acme_client_operator/v0/acme_client.py:113 | a successful decoding is exact: re-encoding the text gives back the same bytes |
| `Utf8.DecodeFailsOnlyOnNonText` | tests/integration/acme-tester/lib/charms/acme_client_operator/v0/acme_client.py:112-118 | decoding fails exactly when the bytes are the encoding of no text (the failure is then caught and the request dropped) |
| `Builtins.FindFrom` | tests/integration/acme-tester/lib/charms/acme_client_operator/v0/acme_client.py:140 | the scan that `split` performs: a found position lies at or after the start, and the whole separator fits there |
| `Builtins.FindFromFirst` | tests/integration/acme-tester/lib/charms/acme_client_operator/v0/acme_client.py:140 | the scan finds an occurrence of the separator with none before it; it finds nothing only when there is no occurrence at all |
| `Builtins.Split` | tests/integration/acme-tester/lib/charms/acme_client_operator/v0/acme_client.py:140 | `str.split("\n\n")` always returns at least one piece |
| `Builtins.SplitShape` | tests/integration/acme-tester/lib/charms/acme_client_operator/v0/acme_client.py:140 | the pieces have the shape `Splittable` describes: no piece contains the separator; every piece but the last ends cleanly; there is exactly one piece iff the text has no separator |
| `Builtins.JoinSplit` | tests/integration/acme-tester/lib/charms/acme_client_operator/v0/acme_client.py:140 | joining the pieces with the separator gives back the text |
| `Builtins.SplitJoin` | tests/integration/acme-tester/lib/charms/acme_client_operator/v0/acme_client.py:140 | splitting a join gives back the parts whenever the parts have the shape `Split` produces, so `Split` is a bijection onto that shape |
| `Builtins.BlankLineEndsCleanly` | tests/integration/acme-tester/lib/charms/acme_client_operator/v0/acme_client.py:140 | with a blank-line separator, a piece ends cleanly iff it has no blank line and does not end with a newline |
| `Builtins.Reversed` | tests/integration/acme-tester/lib/charms/acme_client_operator/v0/acme_client.py:146 | `list(reversed(xs))`: same length; element `i` is element `len-1-i` of the input |
| `Builtins.ReversedTwice` | tests/integration/acme-tester/lib/charms/acme_client_operator/v0/acme_client.py:146 | reversing twice gives back the list |
| `AcmeClientLib.Cmd` | tests/integration/acme-tester/lib/charms/acme_client_operator/v0/acme_client.py:150-169 | `_cmd` has exactly 11 elements: `lego --email E --accept-tos --csr C --server S --dns P run`, with the configured values at positions 2, 5, 7 and 9 |
| `AcmeClientLib.CmdInjective` | tests/integration/acme-tester/lib/charms/acme_client_operator/v0/acme_client.py:157-169 | the command vector determines the email, CSR path, server and plugin |
| `AcmeClientLib.CertificatePath` | tests/integration/acme-tester/lib/charms/acme_client_operator/v0/acme_client.py:138 | the pulled path is the certificates directory, then the subject, then `.crt` |
| `AcmeClientLib.CertificatePathInjective` | tests/integration/acme-tester/lib/charms/acme_client_operator/v0/acme_client.py:138 | within one directory, distinct subjects pull distinct files |
| `AcmeClientLib.NormaliseSubject` | tests/integration/acme-tester/lib/charms/acme_client_operator/v0/acme_client.py:111-118 | a text value is used unchanged; a bytes value becomes the text whose UTF-8 encoding it is, or fails when no such text exists |
| `AcmeClientLib.SubjectIndependentOfEncoding` | tests/integration/acme-tester/lib/charms/acme_client_operator/v0/acme_client.py:112-115 | a name given as UTF-8 bytes and the same name given as text yield the same subject |
| `AcmeClientLib.SubjectOf` | tests/integration/acme-tester/lib/charms/acme_client_operator/v0/acme_client.py:109-118 | no subject when the CSR does not load or has no common-name attribute; otherwise the first common-name value, normalised |
| `AcmeClientLib.ChainPublication` | tests/integration/acme-tester/lib/charms/acme_client_operator/v0/acme_client.py:138-148 | the chain is non-empty; `chain[0]` is the CA and `chain[last]` is the certificate; the reversed chain is a valid split whose join is the pulled text; no certificate holds a blank line; the CSR and relation id pass through unchanged |
| `AcmeClientLib.ChainOfBlocks` | tests/integration/acme-tester/lib/charms/acme_client_operator/v0/acme_client.py:138-148 | N well-formed blocks joined by blank lines are published as certificate = first block, CA = last block, chain = the blocks reversed |
| `AcmeClientLib.LeafAndCaScenario` | tests/integration/acme-tester/lib/charms/acme_client_operator/v0/acme_client.py:138-148 | a leaf and a CA separated by a blank line are published as certificate = leaf, CA = ca, chain = `[ca, leaf]` |
| `AcmeClientLib.EmptyBundle` | tests/integration/acme-tester/lib/charms/acme_client_operator/v0/acme_client.py:138-148 | an empty bundle is published as an empty certificate, an empty CA and the chain `[""]` |
| `AcmeClientLib.CertificateCreationRequestEvent.constructor` | tests/integration/acme-tester/lib/charms/acme_client_operator/v0/acme_client.py:99 | an event carries its CSR and its relation id and starts undeferred |
| `AcmeClientLib.CertificateCreationRequestEvent.Defer` | tests/integration/acme-tester/lib/charms/acme_client_operator/v0/acme_client.py:106 | `event.defer()` marks the event for re-delivery |
| `AcmeClientLib.AcmeClient.constructor` | tests/integration/acme-tester/lib/charms/acme_client_operator/v0/acme_client.py:79-83 | server, CSR path and certificates directory start as the library's constants; email, plugin and plugin config are those of the concrete charm; nothing has happened yet |
| `AcmeClientLib.AcmeClient.OnPebbleReady` | tests/integration/acme-tester/lib/charms/acme_client_operator/v0/acme_client.py:96-97 | a ready container sets an active status |
| `AcmeClientLib.AcmeClient.OnCertificateCreationRequest` | tests/integration/acme-tester/lib/charms/acme_client_operator/v0/acme_client.py:99-148 | the decision tree. Not leader: nothing changes. Container unreachable: waiting status, event deferred, no effect. No usable subject: dropped with no status change and no effect. lego fails: blocked status after exactly push and exec. Success: status unchanged; the effects are, in order, push of the encoded CSR to `/tmp/csr.pem`, exec of `_cmd` (timeout 300, `/tmp`, plugin config), pull of `<certs>/<subject>.crt`, and publication of the split bundle |

## Left out

- Parsing the CSR (`x509.load_pem_x509_csr` and the lookup of common-name attributes) is a
  foreign library. The model receives its outcome as an input: `None` when loading fails,
  otherwise the list of common-name values.
- `push`, `exec` and `pull` are modelled as effects in the trace together with their
  arguments. The model assumes they succeed. When the container raises on push, exec start or
  pull (for example, a certificate file that is missing), the exception escapes the handler.
  The model does not represent that outcome.
- Only `ExecError` is caught while waiting for lego. A timeout surfaces as a different
  exception, which escapes the handler and is not modelled. The exit code and stderr lines of
  an `ExecError` are only logged, so the model keeps them but uses neither.
- Logging is not modelled.
- The ops framework is not modelled: event observation, the container name taken from the
  metadata and its `_pebble_ready` event name, and the serialisation of
  `set_relation_certificate` into relation data. The `Publish` effect records that call's
  arguments.
- `update_generic_acme_config` and its email and URL validation are not part of this model.
  The unit tests call it, but this version of the library does not define it.
- Python strings can hold lone surrogates. A Dafny `char` cannot, so a CSR text whose encoding
  would fail is not representable.
- `tests/integration/acme-tester/src/charm.py` is not modelled. It only supplies constant
  values for `email`, `plugin` and `pluginConfig`, which the `AcmeClient` constructor takes as
  parameters. `src/charm.py` is an empty placeholder and is not modelled either.
