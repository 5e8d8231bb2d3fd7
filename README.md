# skopeo command-line helpers, modelled in Dafny

This project models the self-contained logic of `cmd/skopeo/utils.go` in the
skopeo container-image tool:

- **Credentials** (`credentials.dfy`): `parseCreds` splits a
  `USERNAME[:PASSWORD]` option on its first colon. The empty string and an
  empty username are rejected. `getDockerAuth` wraps the pair into an
  authentication record.
- **System-context builders** (`system_context.dfy`): the option records
  (global, shared, per-image, per-destination) are datatypes. The tri-state
  optional flags are `Option`s. `imageOptions.newSystemContext` and
  `imageDestOptions.newSystemContext` are methods that build the image
  library's configuration record by successive field updates, as the Go code
  does. Their postconditions state the precedence rules outright:
  - the per-image auth file overrides the shared one;
  - per-image `--tls-verify` overrides the deprecated global one;
  - `--creds` together with `--no-creds` is an error;
  - a credentials parse error is propagated;
  - the destination adds the compression fields.
- **Manifest splitting** (`manifests.dfy`, `strings.dfy`): the text is split
  on the literal `"\n---"` and empty fragments are skipped. Every non-empty
  fragment goes to a decoder, which is a function parameter. Joining the
  fragments with the separator gives back the text.
- **Image walker** (`manifests.dfy`): `walkImage` works over an untyped tree.
  A Go `map[string]interface{}` is an association list here. The walker
  collects the `image` of every mapping element of an array held under
  `containers` or `initContainers`, and it recurses only into nested
  mappings. `parseImagesFromManifests` handles the documents in order. For
  each document it appends the walked images, then the comma split of the
  `skopeo.io/extraimages` annotation. Go's map iteration order is not fixed,
  so a lemma shows that every order of a mapping's entries gives the same
  multiset of images, and a congruence lemma carries that to nested mappings
  one level at a time. The annotation loop picks keys in an arbitrary order
  and is still proved to produce the one split value.

Modules: `Wrappers` (Option, Result), `Strings` (models of Go's
`strings.Split`, of a literal `regexp.Split`, and of `strings.SplitN(s, c, 2)`),
`Credentials`, `SystemContexts`, `Manifests`.

Source paths below are relative to the repository root. On a fragment the
YAML decoder rejects, the code ends the process with `log.Fatalf`. Here the
extraction returns `Failure(UnmarshalFailed(fragment))` instead. It reports
the first such fragment, which is the one the code would stop on.

## Model

| member | source | states |
|---|---|---|
| `Strings.Split` | cmd/skopeo/utils.go:316 | the leftmost, non-overlapping split of `regexp.Split(data, -1)` on a literal, also used for `strings.Split(v, ",")` at line 348: always at least one piece, `""` splits into `[""]`; its pieces rejoin to the input (`Strings.JoinSplit`), contain no separator (`Strings.SplitPartsAvoidSeparator`) and are cut at the leftmost occurrence (`Strings.SplitLeftmost`) |
| `Strings.SplitLeftmost` | cmd/skopeo/utils.go:316 | when there are several pieces, the separator does not occur inside the first piece and does occur right after it |
| `Strings.JoinSplit` | cmd/skopeo/utils.go:316 | joining the pieces of a split with the separator gives back the input, empty pieces included |
| `Strings.SplitPartsAvoidSeparator` | cmd/skopeo/utils.go:316 | no piece of a split contains the separator |
| `Strings.SplitN2` | cmd/skopeo/utils.go:264 | `SplitN(s, ":", 2)` gives one piece (the whole string) exactly when there is no colon, otherwise a colon-free head and a tail that rebuild the string |
| `Strings.SplitN2AtFirst` | cmd/skopeo/utils.go:264 | splitting `head + ":" + tail` with a colon-free head gives exactly `[head, tail]` |
| `Credentials.ParseCreds` | cmd/skopeo/utils.go:260-272 | fails exactly on "" (EmptyCredentials) or a leading colon (EmptyUsername); without a colon gives `(creds, "")`; with a colon gives a non-empty colon-free user and a password with `user + ":" + pass == creds` |
| `Credentials.ParseFormatCreds` | cmd/skopeo/utils.go:260-272 | parsing `user:pass` returns `(user, pass)` for every non-empty colon-free user and every password, colons included |
| `Credentials.FormatParseCreds` | cmd/skopeo/utils.go:260-272 | formatting a parsed pair gives back the input whenever the input held a colon |
| `Credentials.GetDockerAuth` | cmd/skopeo/utils.go:274-283 | the auth record holds the parsed username and password; it fails under the same conditions with the same error |
| `SystemContexts.NewSystemContext` | cmd/skopeo/utils.go:155-197 | fails, with no context, exactly when creds are given together with no-creds (CredsConflict, checked first) or when they do not parse (the parse error); otherwise the auth file is the per-image one if given, else the shared one; the registry skip-TLS flag is `!tlsVerify` if per-image tls-verify is given, else `!global.tlsVerify` if that is given, else unset; the daemon flag is `!tlsVerify` if given, else false; no-creds yields the empty auth record, creds the parsed one, neither none; paths, host, arch and OS are copied; destination fields stay unset |
| `SystemContexts.NewDestSystemContext` | cmd/skopeo/utils.go:237-258 | fails exactly when the image builder fails (same error) or the format is non-empty and unknown to the lookup (UnknownCompressionFormat); on success the image fields obey the image builder's specification, the two booleans are copied, the format is set iff the name is non-empty and is then the lookup's algorithm, and the level equals the optional level |
| `SystemContexts.ImageContextDetermined` | cmd/skopeo/utils.go:155-157 | the options determine the built context completely, so two builds from the same options are equal |
| `Manifests.Lookup` | cmd/skopeo/utils.go:364 | a key lookup is absent exactly when no entry has the key, and otherwise returns the value of an entry with that key |
| `Manifests.ContainerImagesMembers` | cmd/skopeo/utils.go:361-369 | a string comes from a container array exactly when some element is a mapping with an `image` key rendering to it |
| `Manifests.WalkImagesMembers` | cmd/skopeo/utils.go:355-378 | a string is walked out of a mapping exactly when some entry holds it: an array under `containers`/`initContainers` with such an element, or a nested mapping that holds it |
| `Manifests.WalkImagesAppend` | cmd/skopeo/utils.go:356-375 | walking a concatenation of entries concatenates the walks, in entry order |
| `Manifests.WalkImagesPermutation` | cmd/skopeo/utils.go:356 | every visiting order of a mapping's entries yields the same multiset of images |
| `Manifests.WalkImagesCongruent` | cmd/skopeo/utils.go:356-375 | entries that contribute the same multiset of images position by position give mappings with the same multiset of images |
| `Manifests.EntryImagesPermutation` | cmd/skopeo/utils.go:373 | a nested mapping visited in another entry order contributes the same multiset of images |
| `Manifests.NestedReorderAnywhere` | cmd/skopeo/utils.go:356-375 | reordering the entries of a nested mapping held by any entry of a mapping leaves the mapping's multiset of images unchanged |
| `Manifests.NestedReorder` | cmd/skopeo/utils.go:356-375 | example: in a one-entry mapping whose value is a two-entry mapping, swapping the two nested entries leaves the multiset of images unchanged |
| `Manifests.WalkImagesIgnoresInert` | cmd/skopeo/utils.go:358-374 | scalars and arrays under other keys contribute nothing wherever they stand |
| `Manifests.WalkImage` | cmd/skopeo/utils.go:355-378 | the loop-and-recursion walk returns exactly the specified images of the mapping |
| `Manifests.BusyboxPod` | cmd/skopeo/utils.go:355-378 | a decoded Pod with one `busybox` container yields `["busybox"]` |
| `Manifests.Fragments` | cmd/skopeo/utils.go:316 | the fragments rebuild the text when joined with `"\n---"`, and none contains the separator |
| `Manifests.NonEmptyFragments` | cmd/skopeo/utils.go:319-324 | every kept fragment is a non-empty fragment of the text, and every non-empty fragment is kept |
| `Manifests.NonEmptyAppend` | cmd/skopeo/utils.go:319-324 | keeping the non-empty fragments distributes over concatenation, so their order and multiplicity are kept |
| `Manifests.NonEmptySingle` | cmd/skopeo/utils.go:321-323 | a single fragment is kept exactly when it is non-empty |
| `Manifests.DecodePartsSuccess` | cmd/skopeo/utils.go:316-334 | decoding succeeds exactly when every non-empty fragment decodes, and then yields one document per non-empty fragment, in order |
| `Manifests.DecodePartsFailure` | cmd/skopeo/utils.go:326-330 | on failure the reported fragment is non-empty, rejected, and the first rejected one |
| `Manifests.UnmarshalUnstructuredK8s` | cmd/skopeo/utils.go:313-335 | the loop returns exactly the specified decoding of the fragments, skipping empty ones and stopping at the first rejected one |
| `Manifests.AnnotationImages` | cmd/skopeo/utils.go:345-350 | whatever order the keys are visited in, the result is the comma split of the extra-images annotation (empty without it), and the split rejoins to the annotation's value |
| `Manifests.ExtraImagesExample` | cmd/skopeo/utils.go:345-350 | the annotation `"a,b,c"` adds `["a", "b", "c"]` |
| `Manifests.ManifestImagesAppend` | cmd/skopeo/utils.go:340-351 | documents contribute their images in document order |
| `Manifests.ManifestImagesSingle` | cmd/skopeo/utils.go:340-351 | a document contributes its walked images followed by its extra images |
| `Manifests.ParseImagesFromManifests` | cmd/skopeo/utils.go:337-353 | fails exactly when decoding fails, with the same error; otherwise returns, document by document, the walked images and then the annotation images |

## Left out

- `commandAction`, `sharedImageFlags`, `dockerImageFlags`, `imageFlags` and `imageDestFlags` (cmd/skopeo/utils.go:35-43, 52-61, 86-153, 209-235) are left out. They register command-line flags and show help, and have no behaviour to check beyond joining flag names.
- `parseImage` and `parseImageSource` (cmd/skopeo/utils.go:287-311) are left out. They only call the image library's name parser and image openers, which are foreign and network-bound.
- The YAML decoder, the Kubernetes `Unstructured` wrapper and `GetAnnotations` are not modelled. The `decode` parameter stands for all three: it maps a fragment to a tree plus its annotations, or to `None` when the fragment is rejected.
- `compression.AlgorithmByName` is not modelled. The `algorithmByName` parameter stands for it, with `None` for an unknown name.
- `log.Fatalf` does not end a process here. The run stops with an error result instead. The `log.Debugf` message for an empty fragment is not modelled.
- `Manifests.Render`: the `%s` formatting of an image value that is not a string is not modelled. Such a value gives the empty string. It still contributes exactly one image, as in the code.
- Go map iteration order: the walker visits each association list in its own order, and Go picks a new order in every nested call. `WalkImagesPermutation` covers a reordering of one mapping's entries. `WalkImagesCongruent`, `EntryImagesPermutation` and `NestedReorderAnywhere` lift it to nested mappings, one level per application. The mapping elements of a container array are not reordered by any lemma: with a repeated `image` key, which only an association list can have, their order matters. No single lemma states the result for an arbitrary reordering at every depth at once. The images are equal only up to their order. Association lists may repeat a key, which Go maps cannot. A lookup then takes the first entry.
- The `SystemContext` is a value here, so the "fresh instance, safe to mutate" guarantee of both builders (cmd/skopeo/utils.go:155-156, 237-238) is not modelled. That guarantee does not fully hold in the code: `ctx.CompressionLevel = &opts.compressionLevel.value` (cmd/skopeo/utils.go:255) points into the options record, so a write through the returned level changes the options. The model copies the level, so this aliasing is not captured. Its fields that this code never sets are left out too.
- The `errorShouldDisplayUsage` error type (cmd/skopeo/utils.go:26-28) is left out. It belongs to the command-action plumbing.
