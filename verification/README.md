# Verification model of the scorpion workspace

This project models the parts of the workspace in which state, loops and byte formats make mistakes
easy, and proves what they promise. `dafny verify dfyconfig.toml` checks all of it with Dafny 4.11.

## What is modelled

- **The IAM trace protocol** (`TraceProtocol`, `TraceRuns`, `TraceInspector`, `TraceSchedules`, `TraceAnswers`).
  Callbacks and readbacks share a compare-and-swap row and an insert-only history with no common
  transaction. A call is a program counter that moves by one store call; a store call can succeed,
  fail before its effect or fail after it; a process can die between any two. The theorems are over
  every interleaving of any number of calls. The functions of `iam.rs` are also written as they are,
  against a store that changes under them, and proved to make exactly those moves; `TraceAnswers` says what each
  call is answered by what was stored when it arrived and what is stored when it ends.
- **The SAML event walker** (`SamlMarkup`, `SamlWalker`, `SamlParser`, `SamlPolicy`, `SamlReference`,
  `SamlAgreement`, `SamlLosses`, `SamlVerdicts`, `SamlWitnesses`, `SamlNames`, `SamlTexts`, `SamlLimits`). `SamlParser` is the loop with its
  stack, capture and flags; `SamlWalker` proves it equal to a recursive walk of the element tree, for
  every balanced document; `SamlReference` says what the facts should be, and `SamlVerdicts` exactly
  when they are. `SamlNames`, `SamlTexts` and `SamlLimits` say, by the names in the reader's events, which attribute
  and which text ends up under which fact, and what a document must keep to.
- **JSON flattening** (`JsonFacts`) against a pure flattening, what its redaction hides
  (`JsonRedaction`), and its facts by the keys and indices that lead to them (`JsonPaths`).
- **A whole callback** (`IamCallback`, `CallbackNames`), from decoded pairs through base64 and SAML to its facts.
- **The form codec and the loopback listener** (`FormCodec`, `CallbackListener`, `FormReading`).
- **Base64** (`Base64`, `Base64Digits`): the encoder loop, the strict decoder, whitespace and size limits.
- **The request framer** (`HttpHead`, `RequestFramer`, `RequestChunking`, `RequestMessages`, `RequestHeaders`): which
  streams are answered the same however they are cut into reads, a round trip for requests, and what header lines
  declare in either spelling.
- **The proxy forwarder** (`ProxyForwarder`, `ProxyMessages`), **the citation splitter** (`Citations`,
  `CitationMarkers`) and **the cache rules** (`CacheRules`, `CacheAccess`).

`Results`, `Strings`, `Utf8` and `IamFacts` are shared: the standard-library string methods used, UTF-8
with lossy decoding, facts and their bounds. A `String` is a `string`, a byte slice a `seq<byte>`; sizes
are in bytes where the source counts bytes. Shifts and masks are written as division and remainder.

## Where the code differs from what is said of it

The model follows the code in each case.

- `iam.rs:791-796` and `iam.rs:1177-1182` say that a SAML attribute called like a sensitive name is
  redacted. The check is made on the fact's name, which begins with `saml.` always, so it never fires
  (`SamlPolicy.SamlFactsAreSound`).
- A text-carrying element inside another replaces the outer capture, whose fact is lost; exactly the
  documents with such nesting lose facts (`SamlVerdicts.NestingAndNamesDecide`), for instance
  `SamlWitnesses.NestedValuesLoseAFact`.
- Facts lost that way are not counted either: between 33 and 64 values with an empty one in each are
  accepted, although they make too many facts (`SamlWitnesses.LostFactsAreNotCounted`). Only nesting makes
  the walker more lenient than the reference, and it is never stricter (`SamlVerdicts.OnlyNestingIsLenient`).
- The walker does not ask at the end of its input whether elements are still open: a document that is cut off is
  accepted with the facts gathered so far, and text still being captured is dropped
  (`SamlWalker.CutDocumentsAreAccepted`, `SamlWalker.UnendedTextIsDropped`).
- The name of an empty `Attribute` is never forgotten, so a later value outside any attribute is filed
  under it (`SamlWitnesses.EmptyAttributeLeaksItsName`); an `Attribute` inside another makes the outer
  one's name forgotten (`SamlWitnesses.NestedAttributesForgetTheName`). `SamlReference.NamesHold` says
  for which documents values are filed rightly.
- `iam.rs:104-108` promises redaction of nested JSON fields. An array inside an array is rendered whole,
  secrets included; exactly those secrets are exposed (`JsonRedaction.RedactionIsExact`,
  `JsonRedaction.NestedSecretShows`).
- Fact names of a JSON body are its keys with dots between them. A key that has a dot itself, or an empty one in front,
  can give two values one name (`JsonPaths.NamesCanClash`); without such keys, and without brackets in keys, none do
  (`JsonPaths.NamesAreDistinct`).
- A readback whose repair is lost to a failed store call shows observations under "awaiting"
  (`TraceRuns.LostRepairShowsAwaiting`); without a failure of its own it never does.
- The loopback listener of `mcp_oauth.rs` makes one read of 2048 bytes. A redirect whose target does not end within
  what is read is judged on a part of it; if that part ends in the code, a shortened code is accepted as the answer
  (`CallbackListener.LongCodesAreCut`, `CallbackListener.AcceptedCodeCanBeCut`).
- When its head ends between 60 and 64 KiB, a request longer than the limit is accepted or refused depending on how
  it arrives (`RequestChunking.RiskDecides`, `RequestChunking.SomeSplitMatters`).
- A request head that is not UTF-8 is dropped by the forwarder, and only the credential line is sent
  (`ProxyForwarder.HeadSurvivesIfText`, `ProxyForwarder.HeadsCanBeLost`); what was buffered behind a CONNECT head is not sent on.

## Model

| member | source | states |
|---|---|---|
| TraceInspector.DomainPersistence.ReadCurrent | spider/src/features/domain_persistence.rs:293-327 | a read sees the trace as the rivals left it and changes nothing of it; it can fail |
| TraceInspector.DomainPersistence.ReadHistory | spider/src/features/domain_persistence.rs:440-469 | the same for the history, which comes in revision order |
| TraceInspector.DomainPersistence.WriteCurrent | spider/src/features/domain_persistence.rs:328-405 | succeeds only at the expected revision and moves to the next one; a failure may come before or after the effect |
| TraceInspector.DomainPersistence.AppendHistory | spider/src/features/domain_persistence.rs:406-439 | inserts unless the revision is taken, and never replaces; a failure may come before or after the effect |
| TraceInspector.CreateTrace | scorpion_app/src/iam.rs:272-308 | the function makes exactly the moves of the protocol machine, whatever rivals do between its store calls |
| TraceInspector.AppendObservation | scorpion_app/src/iam.rs:405-432 | so does the retry loop: re-count, append at length + 1, at most five attempts, only a taken revision is retried |
| TraceInspector.TryMarkReceived | scorpion_app/src/iam.rs:443-462 | so does the best-effort transition, which swallows every failure |
| TraceInspector.ReceiveCallbackRequest | scorpion_app/src/iam.rs:322-391 | so does a whole callback: existence, parsing, append, transition, in this order |
| TraceInspector.ReadTrace | scorpion_app/src/iam.rs:1342-1416 | so does a readback with its repair and its refreshed state; what it is answered is stated by TraceAnswers.ReadbackFindsItsTrace |
| TraceProtocol.AppendIsAtEnd | scorpion_app/src/iam.rs:412-424 | in a gapless history an append lands exactly when its revision is one past the end, and then at the end |
| TraceProtocol.StepKeepsTrace | scorpion_app/src/iam.rs:405-462 | one store call of any caller, however it fails, keeps the invariant of its trace and adds at most its own observation, at the next revision |
| TraceProtocol.StepKeepsOwnProc | scorpion_app/src/iam.rs:405-462 | one store call keeps what its caller knows: the remembered revision never exceeds the history by more than one, the row it read is still revision 1 or already received |
| TraceProtocol.RivalsKeepProc | scorpion_app/src/iam.rs:405-462 | what a caller knows survives any step of any other caller |
| TraceRuns.ActKeepsInv | scorpion_app/src/iam.rs:28-68 | arrivals, store calls and crashes keep the invariant over all traces and all calls |
| TraceRuns.HistoryIsGapless | scorpion_app/src/iam.rs:405-432 | after every interleaving a history is revisions 1..n, each the unchanged observation of a different callback to that trace |
| TraceRuns.NothingIsReplaced | scorpion_app/src/iam.rs:405-432 | over any continuation histories only grow at the end, rows stay, received stays |
| TraceRuns.TransitionHappensOnce | scorpion_app/src/iam.rs:443-462 | the row is at revision 1 exactly while awaiting and at 2 exactly when received: one transition ever, and only with a non-empty history |
| TraceRuns.ReadbackTellsTheTruth | scorpion_app/src/iam.rs:1342-1416 | a readback none of whose store calls failed says received if and only if it shows an observation; no readback says received over an empty list |
| TraceRuns.RepairShowsExactly | scorpion_app/src/iam.rs:1385-1394 | a repairing readback tells the truth if and only if the row is received at its last store call, which only a failed store call of its own can prevent |
| TraceRuns.ReceivedIfLanded | scorpion_app/src/iam.rs:443-462 | a trace is received if and only if it was, or the write of some call in its transition took effect since |
| TraceRuns.RepairShowsByFates | scorpion_app/src/iam.rs:1385-1394 | a repairing readback tells the truth if and only if the trace was received when the repair began, or before the refresh its own write took effect or that of another call |
| TraceRuns.LostRepairShowsAwaiting | scorpion_app/src/iam.rs:1385-1394 | a run in which the write of a repair is lost: the readback shows an observation under awaiting |
| TraceRuns.RepairIsDurable | scorpion_app/src/iam.rs:1342-1416 | once one readback said received, every readback that starts later says so too and shows at least the same observations |
| TraceRuns.GivingUpNeedsRivals | scorpion_app/src/iam.rs:412-431 | retries run out, without a failed store call, only if at least five observations of others were appended during the call |
| TraceRuns.SuccessIsDurable | scorpion_app/src/iam.rs:366-391 | a callback that reported success has its observation in the history exactly once, and left the trace received unless its own transition failed |
| TraceRuns.FailureLeavesNothing | scorpion_app/src/iam.rs:322-391 | a call that failed without a failed store call stored nothing |
| TraceSchedules.CallsTakePartInRuns | scorpion_app/src/iam.rs:322-391 | a call run to its end against the other calls of a run ends as that call of that run: same key, request, start and answer, and faulted exactly if one of its store calls was |
| TraceSchedules.ReadbackAmongOthers | scorpion_app/src/iam.rs:1342-1416 | so read_trace itself, among any other calls and without a failed store call, says received if and only if it shows an observation |
| TraceSchedules.CallbackAmongOthers | scorpion_app/src/iam.rs:322-391 | and receive_callback itself: on success its observation is stored once and the trace received; on failure nothing was stored, and if the trace was there five rivals were |
| TraceAnswers.ReadbackFindsItsTrace | scorpion_app/src/iam.rs:1342-1416 | over every run: a readback shows a view only of a trace that is there, with every observation stored when it arrived; it answers NotFound only if there was no trace when it arrived, and, no store call failing, always if there is none to its end |
| TraceAnswers.CallbackFindsItsTrace | scorpion_app/src/iam.rs:322-391 | a callback is recorded only in a trace that is there, answers NotFound under the same conditions, and rejects exactly the requests that do not parse, each for its own reason |
| TraceAnswers.CreationIsNew | scorpion_app/src/iam.rs:272-308 | a call that is told it created a trace found none there; without a failed store call the trace is there afterwards, and the call fails if it was there before |
| TraceAnswers.OneCallCreates | scorpion_app/src/iam.rs:272-308 | of all calls to create one trace, in any run, at most one is told that it did |
| TraceAnswers.EveryCallIsAnswered | scorpion_app/src/iam.rs:405-432 | whatever rivals do and whatever fails, a creation is answered after one store call, a readback after at most 5, a callback after at most 13 |
| TraceAnswers.StoredIsAnswered | scorpion_app/src/iam.rs:436-462 | once the store call that stores its observation has succeeded, a callback is answered as received, whatever fails after it |
| TraceAnswers.LostRepairsAreForgiven | scorpion_app/src/iam.rs:1385-1394 | a readback whose two reads and last store call succeed shows a view or finds no trace, whatever becomes of its repair |
| TraceAnswers.ReadbackFindsAmongOthers | scorpion_app/src/iam.rs:1342-1416 | so read_trace itself, among any other calls: a view of what is there, with all that was stored when it arrived, or NotFound |
| TraceAnswers.CallbackFindsAmongOthers | scorpion_app/src/iam.rs:322-391 | and receive_callback itself |
| SamlParser.PushTagFacts | scorpion_app/src/iam.rs:972-1052 | each element kind pushes its own attributes in order, Response at the top only, StatusCode and NameID the first time only; which attribute goes under which name is stated by SamlNames.AttributesAreFiled |
| SamlParser.InspectTag | scorpion_app/src/iam.rs:968-1068 | the match on the element kind gives the next facts, flags and counts, or its first error |
| SamlParser.BeginText | scorpion_app/src/iam.rs:1069-1095 | which elements begin a capture; an empty one ends it at once |
| SamlParser.FinalizeSamlCapture | scorpion_app/src/iam.rs:1144-1175 | a finished text becomes the fact of its element kind |
| SamlParser.HandleTag | scorpion_app/src/iam.rs:968-1102 | a start or empty tag moves the walker as specified |
| SamlParser.HandleEnd | scorpion_app/src/iam.rs:1112-1126 | an end tag closes the capture its own element began, forgets the attribute name, pops the stack |
| SamlParser.ParseSamlXml | scorpion_app/src/iam.rs:941-1142 | the loop over any reader events computes the walker function the theorems below are about |
| SamlWalker.WalkerWalksTree | scorpion_app/src/iam.rs:941-1142 | from any state, reading the events of any balanced markup amounts to walking its tree recursively: the stack is the path of open elements and a capture ends with its own element |
| SamlWalker.ParseWalksTree | scorpion_app/src/iam.rs:941-1142 | facts and first error of a whole document are those of the recursive walk |
| SamlWalker.SignaturesAreScoped | scorpion_app/src/iam.rs:1053-1059 | on success the two signature facts say whether a Signature stands outside, and inside, every Assertion, and elements nest at most 32 deep |
| SamlWalker.CutDocumentsAreAccepted | scorpion_app/src/iam.rs:941-1142 | where a document that is accepted is cut off anywhere, the part is accepted too, and the facts gathered in it are a prefix of those of the whole |
| SamlWalker.UnendedTextIsDropped | scorpion_app/src/iam.rs:1103-1142 | text whose element has not ended at the end of the input makes no fact |
| SamlAgreement.CaptureGathersAll | scorpion_app/src/iam.rs:1103-1126 | a capture still live at the end of its element holds exactly all text inside that element |
| SamlAgreement.WalkAgrees | scorpion_app/src/iam.rs:941-1142 | where texts do not nest, walk and reference go on in step: the same first error, or states alike but for the names of attribute values, with equal facts exactly while the names hold |
| SamlVerdicts.NamesDecide | scorpion_app/src/iam.rs:941-1142 | for every document in which no element whose text is taken lies inside another: the same first error as the reference, or as many facts, and the same facts if and only if each attribute value is met under the name of the Attribute around it |
| SamlVerdicts.WalkerMeetsReference | scorpion_app/src/iam.rs:941-1142 | in particular if attribute values lie in attributes that do not nest: facts or first error are those of the reference, which takes every text from its own element |
| SamlLosses.WalkLags | scorpion_app/src/iam.rs:1084-1095 | where texts nest the walk falls behind the reference, never ahead, and never fails where the reference succeeds |
| SamlVerdicts.NestingAndNamesDecide | scorpion_app/src/iam.rs:1042-1126 | for every document the reference accepts: the walker gives the same facts if and only if texts do not nest and the names hold; and it has fewer facts if and only if texts nest |
| SamlVerdicts.OnlyNestingIsLenient | scorpion_app/src/iam.rs:941-1142 | for every document: one that the walker rejects the reference rejects too, and if only the reference rejects it then its texts nest |
| SamlWitnesses.EmptyAttributeLeaksItsName | scorpion_app/src/iam.rs:1042-1052 | for every name and text within the bounds, in the reader's events: behind the fact of the name itself, an empty Attribute leaves its name to a later value outside it |
| SamlWitnesses.NestedAttributesForgetTheName | scorpion_app/src/iam.rs:1119-1121 | in the reader's events, for any two names within the bounds: an Attribute inside another, accepted by the reference, after which a value is filed under the wrong name |
| SamlWitnesses.NestedValuesLoseAFact | scorpion_app/src/iam.rs:1084-1095 | in the reader's events, one value inside another, accepted by the reference, loses a fact |
| SamlWitnesses.LostFactsAreNotCounted | scorpion_app/src/iam.rs:1176-1190 | in the reader's events, 33 to 64 values with an empty one in each: too many facts for the reference, half of them accepted by the walker |
| SamlPolicy.SamlNamesAreNotSensitive | scorpion_app/src/iam.rs:109-126 | no name that begins with "saml." is on the sensitive list, in any letter case |
| SamlPolicy.SamlFactsAreSound | scorpion_app/src/iam.rs:1176-1203 | every accepted document gives at most 64 facts and the three concluding ones, each under a saml. name and within the bound on values; and whatever its attributes are called, none is redacted |
| SamlNames.AttributesAreFiled | scorpion_app/src/iam.rs:972-1052 | for every accepted list of reader events and each of the eleven pairs of element and attribute: the facts under its name are exactly, in order, the first decoding values of that attribute in the elements of that local name that are inspected; InResponseTo alone is not validated |
| SamlNames.ValueOfIsFirst | scorpion_app/src/iam.rs:917-935 | the value taken of an attribute is the first of that local name that decodes |
| SamlTexts.TextsAreFiled | scorpion_app/src/iam.rs:1069-1175 | for every accepted document, however it nests, and each name a text can go under: its facts are exactly, in order, the whole texts of the first Issuer, the first Audience, every StatusMessage, NameID and AttributeValue in which no other such element begins, each value under the name of the Attribute in force |
| SamlLimits.NamesAreKnown | scorpion_app/src/iam.rs:941-1142 | no accepted document gives a fact under any other name |
| SamlLimits.SignaturesAreTold | scorpion_app/src/iam.rs:1053-1140 | the last three facts say whether a Signature stands outside of, and inside, every Assertion, by the local names of the elements, and that none was verified |
| SamlLimits.VerdictsHaveCauses | scorpion_app/src/iam.rs:941-1203 | a document that is accepted has no reading error, at most 32 elements open and at most 32 called Attribute; each error is given only where its own limit is passed |
| JsonFacts.FactSink.PushFact | scorpion_app/src/iam.rs:1244-1261 | pushes exactly when the fact fits in count, name and value, redacted or not as told |
| JsonFacts.FactSink.FlattenOneField | scorpion_app/src/iam.rs:1281-1307 | one field, with the loop over an array |
| JsonFacts.FactSink.FlattenJsonFacts | scorpion_app/src/iam.rs:1269-1310 | accumulate-and-stop is collect-then-check: success if and only if the pure flattening is within every bound and no followed object is too deep, and then exactly that list was pushed; what the list is, by keys and indices, is stated by JsonPaths.LeavesAreNamedByPath |
| JsonRedaction.RedactionIsExact | scorpion_app/src/iam.rs:1281-1308 | for every object: its redacted facts are, one each and in order, its sensitive fields under their paths, those in an array inside an array apart; and putting anything in the place of the sensitive values leaves everything but digests as it is, if and only if there are none of those |
| JsonRedaction.SecretsDoNotMatter | scorpion_app/src/iam.rs:1281-1308 | two bodies that differ only in the values of sensitive fields, each in its own way, show the same, digests apart, if none is exposed |
| JsonRedaction.NestedSecretShows | scorpion_app/src/iam.rs:1297-1304 | a body that is accepted and whose one fact shows the code in it |
| JsonRedaction.PlainBodiesAreRedacted | scorpion_app/src/iam.rs:104-126 | with no array directly inside an array, each sensitive field has exactly one redacted fact, its own, and nothing of its value is anywhere else |
| JsonRedaction.RenderShows | scorpion_app/src/iam.rs:1312-1318 | rendering a value shows every sensitive field in it |
| JsonRedaction.ValueRedacts | scorpion_app/src/iam.rs:1281-1308 | the redacted facts of any value under any name are the list of its unexposed sensitive fields |
| JsonRedaction.SecretsAreListed | scorpion_app/src/iam.rs:1281-1308 | listed and exposed sensitive fields are all there are |
| JsonRedaction.ValueHides | scorpion_app/src/iam.rs:1281-1308 | a value with nothing exposed shows the same with its secrets replaced by anything, digests apart |
| JsonRedaction.ValueShows | scorpion_app/src/iam.rs:1296-1304 | lengthening every secret by a character lengthens what is shown by one for each exposed secret |
| JsonPaths.LeavesAreNamedByPath | scorpion_app/src/iam.rs:1269-1310 | for every body: its facts are, one each and in order, the values reached through its keys, each under Join of the keys k1..kn with dots and with the decimal index in brackets at each array, redacted exactly for a sensitive key |
| JsonPaths.SecretsAreSensitive | scorpion_app/src/iam.rs:109-126 | the sensitive names are those eleven, compared letter by letter with ASCII case ignored |
| JsonPaths.KeysAreJoined | scorpion_app/src/iam.rs:1282-1286 | a text under two keys is the one fact with a dot between them |
| JsonPaths.PathsAreToldApart | scorpion_app/src/iam.rs:1282-1300 | two ways through a body with the same name are the same way, if no key has a dot or a bracket |
| JsonPaths.NamesAreDistinct | scorpion_app/src/iam.rs:1269-1310 | so no two facts of such a body share a name |
| JsonPaths.NamesCanClash | scorpion_app/src/iam.rs:1282-1286 | names that two ways share: a key with a dot against two keys, and an empty key in front |
| JsonPaths.BodiesAreAccepted | scorpion_app/src/iam.rs:1244-1280 | a body is accepted if and only if no object that is followed is more than eight below the outermost, it has at most 64 such values, and each name and value is within 256 and 16384 bytes |
| JsonPaths.QuotedIsRead | scorpion_app/src/iam.rs:1312-1318 | what is rendered of a text reads back as that text by section 7 of RFC 8259, whatever follows |
| JsonPaths.PartsAreJoined | scorpion_app/src/iam.rs:1312-1318 | arrays and objects are rendered as their parts with commas between |
| IamCallback.FactsFromPairs | scorpion_app/src/iam.rs:1227-1237 | one fact for each pair, or a rejection exactly when they are not all within the bounds |
| IamCallback.MarkStateNotValidated | scorpion_app/src/iam.rs:625-636 | in place, relabels the observed facts named state and no other |
| IamCallback.DecodeSaml | scorpion_app/src/iam.rs:892-905 | size, base64, size again, then the XML walk |
| IamCallback.FinalizeIamFacts | scorpion_app/src/iam.rs:561-589 | classification, relabelling and the facts of both tokens; the checks on the way accept exactly what fits in the end |
| IamCallback.InspectQuery | scorpion_app/src/iam.rs:480-491 | a query is rejected for its encoding if and only if a percent sign lacks its digits, for its size if and only if its facts do not fit, and otherwise gives them all |
| IamCallback.InspectForm | scorpion_app/src/iam.rs:507-526 | the same for a posted form, which must be UTF-8 first |
| IamCallback.PairsKeepTheirFacts | scorpion_app/src/iam.rs:561-636 | each pair keeps its own fact, in place and under its name: redacted if sensitive whatever is decoded from it, not validated exactly if it is the state of an OAuth2 or OIDC callback, observed otherwise |
| IamCallback.SamlCallbackShowsTheDocument | scorpion_app/src/iam.rs:874-905 | a posted document whose texts do not nest and whose names hold, in base64 with whitespace anywhere, ends up as its reference facts, or one fact with its first error, behind the generic facts and those of an id_token |
| CallbackNames.NamesMakeTheProtocol | scorpion_app/src/iam.rs:591-615 | by the names of the pairs: a SAMLResponse in any letter case makes it SAML, else an id_token OIDC, else a code, an error or a state OAuth2, else it is generic |
| CallbackNames.PairsBecomeFacts | scorpion_app/src/iam.rs:480-636 | each pair is one fact in its place: redacted under a sensitive name, not validated if it is the state of a callback without SAMLResponse, observed otherwise |
| CallbackNames.TokensFollow | scorpion_app/src/iam.rs:561-589 | behind them stand the facts of the first id_token and then of the first SAMLResponse, or the one fact jwt.decode_error or saml.decode_error that says why not |
| CallbackNames.PairsAreAccepted | scorpion_app/src/iam.rs:1227-1261 | accepted if and only if names and values are within 256 and 16384 bytes and there are at most 64 facts in the end |
| FormCodec.Decode | examples/mcp_oauth.rs:316-341 | the index loop computes the decoding |
| FormCodec.DecodeUndoesEncode | examples/mcp_oauth.rs:316-364 | decoding undoes encoding, for every string |
| FormCodec.QueryRoundTrip | examples/mcp_oauth.rs:306-364 | every list of pairs comes back whole from a target that carries its encoding behind any prefix without a question mark |
| FormCodec.FormTextIsClean | examples/mcp_oauth.rs:353-364 | encoded text has no delimiter of a query and no whitespace |
| FormCodec.ValidatePercentEncoding | scorpion_app/src/iam.rs:1208-1225 | accepts if and only if every percent sign is followed by two hex digits |
| FormCodec.EncoderOutputIsAccepted | scorpion_app/src/iam.rs:1208-1225 | the check accepts every output of the form encoder |
| FormCodec.AcceptedDecodesExactly | scorpion_app/src/iam.rs:1205-1225 | the check accepts exactly the texts in which the lenient decoder lets no percent sign through as itself |
| FormReading.DecodedAsItStands | examples/mcp_oauth.rs:316-341 | every text is decoded as what it stands for: an escape with hex digits in either case is its byte, a plus is a space, anything else is itself |
| FormReading.StandsForOne | examples/mcp_oauth.rs:316-341 | and it stands for one thing only |
| FormReading.SlashAndSpace | examples/mcp_oauth.rs:316-341 | %2f and %2F are a slash, a+b is a and b with a space between |
| FormReading.BytesAreEscaped | examples/mcp_oauth.rs:353-364 | the encoder leaves the 66 unreserved characters and writes any other byte with upper-case digits |
| FormReading.QueriesAreRead | examples/mcp_oauth.rs:306-314 | of the pieces between ampersands those without an equals sign say nothing, the others are split at the first; a target without a question mark has no query |
| CallbackListener.WaitForCode | examples/mcp_oauth.rs:190-233 | the first connection whose one read, of up to 2048 bytes, decides, decides; all before it left the listener waiting |
| CallbackListener.TargetOfRead | examples/mcp_oauth.rs:194-201 | however many bytes of a redirect one read delivers, the target seen is exactly the part of the target among them |
| CallbackListener.RedirectIsJudgedByItsPairs | examples/mcp_oauth.rs:190-233 | the target arrives whole if and only if the bytes read reach to its end, and then, whatever values the server sends back, the listener decides on those values: they survive request line, query and percent-encoding |
| CallbackListener.LongCodesAreCut | examples/mcp_oauth.rs:194-232 | for every state, code of unreserved characters and read that ends inside the code: the part of the code that was read is accepted as the answer |
| CallbackListener.AcceptedCodeCanBeCut | examples/mcp_oauth.rs:194-232 | of a code of more than 2021 letters, for a state of one letter, a read of 2048 bytes gives the first 2021 |
| FormReading.ParametersDecide | examples/mcp_oauth.rs:211-230 | by the first parameters called error, state and code: an error is reported whatever else there is, another state or none is a mismatch, a code is taken only under the right state; a target that does not begin with /callback decides nothing |
| FormReading.SecondWordIsTarget | examples/mcp_oauth.rs:196-201 | the target is the second word of what was read |
| Base64.Base64Encode | examples/chrome_proxy_dns_shortcircuit.rs:29-55 | the loop gives the encoding of section 4 of RFC 4648, of length (n + 2) / 3 * 4 |
| Base64.DecodeUndoesEncode | examples/chrome_proxy_dns_shortcircuit.rs:29-55 | the strict decoder undoes the encoder |
| Base64.EncodeUndoesDecode | examples/chrome_proxy_dns_shortcircuit.rs:29-55 | and accepts no other text: padding and spare bits are canonical |
| Base64.EncodedIsPlain | examples/chrome_proxy_dns_shortcircuit.rs:29-55 | an encoding has the reserved length and neither whitespace nor a line end in it |
| Base64.DecodeSamlResponse | scorpion_app/src/iam.rs:892-904 | success, and each of the three errors, exactly characterised by what the text without whitespace encodes and by the two sizes |
| Base64.WrappedTextDecodes | scorpion_app/src/iam.rs:886-904 | whitespace put in anywhere changes nothing |
| Base64.UnbrokenEncodings | scorpion_app/src/iam.rs:892-904 | both size bounds bite: of unbroken encodings those of up to 8192 bytes come through, those of up to 12288 fail on the decoded bound, longer ones on the raw bound |
| Base64Digits.EncodedIsWritten | examples/chrome_proxy_dns_shortcircuit.rs:29-55 | text and bytes are the same bits: the four digits of each quantum, in the alphabet of table 1 of RFC 4648, are in base 64 the number its bytes are in base 256, with padding for missing bytes |
| HttpHead.FindInPrefix | scorpion_app/src/main.rs:60-68 | the first blank line of a stream is seen in a prefix exactly when all of it is there |
| RequestFramer.ReadHeaders | scorpion_app/src/main.rs:76-95 | the last line with a header name gives its value; a length that does not parse is 0 |
| RequestFramer.ReadHead | scorpion_app/src/main.rs:43-64 | the first loop holds a prefix of the stream, as long as the specification says |
| RequestFramer.ReadBody | scorpion_app/src/main.rs:105-111 | the second loop yields the declared slice of the whole stream, or nothing if the stream is short |
| RequestFramer.Handle | scorpion_app/src/main.rs:39-111 | the answer for a connection depends on the whole stream and on how many bytes were held at the end of the head, and on nothing else |
| RequestChunking.ChunkingHardlyMatters | scorpion_app/src/main.rs:43-111 | any reads of 1 to 4096 bytes give the one-shot answer, or 413 for a stream at risk |
| RequestChunking.SmallStreamsAreSafe | scorpion_app/src/main.rs:43-111 | within the limit every way to cut a stream gives the one-shot parse |
| RequestChunking.RiskDecides | scorpion_app/src/main.rs:51-59 | two ways to cut a stream differ if and only if its head ends within the limit, one read can carry it past the limit, and it is not refused anyway |
| RequestChunking.SomeSplitMatters | scorpion_app/src/main.rs:51-59 | a stream that is refused or answered depending on how it is cut |
| RequestMessages.ComposedIsParsed | scorpion_app/src/main.rs:65-111 | method, path, content type and body of a message are what was written into it |
| RequestMessages.ComposedIsHandled | scorpion_app/src/main.rs:39-111 | also in any reads, for messages within the limit |
| RequestHeaders.DeclaredIsFramed | scorpion_app/src/main.rs:65-111 | for any header lines, with both names in either spelling, any number of times and in any order, and anything behind the blank line: more than 65536 declared is 413, else the body is what the last length line declares, or empty if it does not all come, and the type that of the last type line; what is no number below 2^64 declares 0 |
| RequestHeaders.LineFeedsAreEnough | scorpion_app/src/main.rs:71-95 | lines of a head may end in a line feed alone |
| ProxyForwarder.ProxyUrlParses | examples/chrome_proxy_dns_shortcircuit.rs:64-84 | a proxy URL is read as written, and refused if and only if its port is not a number below 65536 |
| ProxyForwarder.ParsedHeaderIsHeader | examples/chrome_proxy_dns_shortcircuit.rs:64-84 | every header that is parsed from any URL is one line, made from the text before the first @ |
| ProxyForwarder.ConnectCarriesTheCredential | examples/chrome_proxy_dns_shortcircuit.rs:64-153 | for every accepted URL with a credential and every buffered CONNECT: what is sent has its only blank line at its end, is the head of the client without one line, and the credential in that line decodes to the text before the first @ of the URL |
| ProxyForwarder.ConnectWithoutCredential | examples/chrome_proxy_dns_shortcircuit.rs:141-153 | without a credential the head is sent on unchanged |
| ProxyForwarder.FillBuffer | examples/chrome_proxy_dns_shortcircuit.rs:113-128 | the read loop stops at the read that completes the head, and gives up exactly when none is complete |
| ProxyForwarder.RewriteConnect | examples/chrome_proxy_dns_shortcircuit.rs:141-153 | the bytes of a CONNECT head with the credential as last line |
| ProxyForwarder.ForwardHead | examples/chrome_proxy_dns_shortcircuit.rs:130-187 | either way of rewriting sends the same bytes, the head with one line more, and behind it what was buffered unless it is a CONNECT: ProxyMessages.OthersGoWhole states it without the functions of this contract |
| ProxyForwarder.HandleClient | examples/chrome_proxy_dns_shortcircuit.rs:113-193 | what is sent on is the rewriting of what was buffered, and nothing without a head |
| ProxyForwarder.FramingIsKept | examples/chrome_proxy_dns_shortcircuit.rs:141-153 | the rewritten head has its only blank line at its end |
| ProxyForwarder.DeletingTheLine | examples/chrome_proxy_dns_shortcircuit.rs:141-153 | without the inserted line it is the original head, byte for byte |
| ProxyForwarder.HeadSurvivesIfText | examples/chrome_proxy_dns_shortcircuit.rs:135-187 | the head reaches the upstream if and only if it is UTF-8 |
| ProxyForwarder.HeadsCanBeLost | examples/chrome_proxy_dns_shortcircuit.rs:135-187 | a buffered head of which nothing is sent on |
| ProxyMessages.OthersGoWhole | examples/chrome_proxy_dns_shortcircuit.rs:135-192 | a head that is UTF-8 and does not begin with CONNECT: without a credential everything buffered is sent on byte for byte, and with one everything with the line put in before the blank line |
| ProxyMessages.ConnectsGoAlone | examples/chrome_proxy_dns_shortcircuit.rs:141-153 | of a CONNECT the head is sent on in the same way, and nothing that was buffered behind it |
| ProxyMessages.OthersCarryTheCredential | examples/chrome_proxy_dns_shortcircuit.rs:64-192 | for every accepted URL: what is sent on of a request that is no CONNECT is all that was buffered, with one line more if the URL has a credential, which that line decodes to |
| ProxyMessages.BlankIsFound | examples/chrome_proxy_dns_shortcircuit.rs:119-133 | the end of the head is the first place where CR LF CR LF stands |
| ProxyMessages.PlainUrlParses | examples/chrome_proxy_dns_shortcircuit.rs:64-84 | a proxy URL without a credential is read as it is written |
| ProxyMessages.OtherUrlsAreRefused | examples/chrome_proxy_dns_shortcircuit.rs:64-84 | another scheme, or no port, is refused |
| Citations.AppendMarker | scorpion_app/src/main.rs:687-700 | a marker becomes a button if it is bound, inert text if not |
| Citations.AppendSynthesisWithCitations | scorpion_app/src/main.rs:680-702 | no text is lost, and the buttons are exactly the bound markers found by trying every position, each in its place |
| Citations.MarkersAfterMatch | scorpion_app/src/main.rs:680-702 | going on behind a match skips no marker |
| CitationMarkers.MarkersLeadToTheirNumber | scorpion_app/src/main.rs:679-693 | there is a button at a place if and only if "[Source " + n + "]" is written there, n in decimal with leading zeros or not, above 0 and bound to evidence that is not empty; and it opens citations[n] |
| CitationMarkers.MarkersAscend | scorpion_app/src/main.rs:680-702 | the buttons come in the order of the text, one for each place |
| CacheRules.MaterializeNetworkResponse | spider/src/cache_request.rs:308-356 | the whole body, or the failure of a chunk; a 304 without its cookies |
| CacheRules.CacheAdapter.RemoteFetch | spider/src/cache_request.rs:293-306 | the one request is sent once |
| CacheRules.CacheManager.ExecuteRequest | spider/src/cache_request.rs:91-139 | one request changes the store and answers as the state machine does; which requests that lets in is stated by CacheAccess.PersonalRequestsPass |
| CacheRules.CookiesAreVetoed | spider/src/cache_request.rs:198-220 | a response with Set-Cookie is never storable |
| CacheRules.NoCookieIsEverStored | spider/src/cache_request.rs:198-246 | over every run of requests against any origin no stored entry has Set-Cookie, 304 merges included |
| CacheRules.CallersKeepTheirCookies | spider/src/cache_request.rs:332-337 | an answer from the origin other than a 304 keeps all its header fields for the caller |
| CacheRules.RejectedRequestsAreApart | spider/src/cache_request.rs:91-98 | over every run: without the requests that are not admitted, the store at the end and what happens to each of the others are the same |
| CacheRules.RejectedAnswers | spider/src/cache_request.rs:91-98 | in every run a request that is not admitted is answered by the origin's own reply, whatever is stored |
| CacheRules.KeyIsIdentity | spider/src/cache_request.rs:43-52 | two requests share a key if and only if namespace, method and URL agree, for any namespaces, with newlines too |
| CacheRules.ServedBodiesAreTheirOwn | spider/src/cache_request.rs:100-139 | after any run, a body served from the store was sent earlier by the origin for that same identity, to a cacheable request |
| CacheAccess.PersonalRequestsPass | spider/src/cache_request.rs:91-98 | after any run: a request that is no GET or HEAD, or has a body, a secret header, or a header authorization, proxy-authorization, cookie or set-cookie, or asks for no cache, leaves the store as it is and is answered with exactly what the origin sends, its chunks in order |
| CacheAccess.NothingPersonalIsStored | spider/src/cache_request.rs:178-246 | over every run: every stored entry was sent by the origin, whole, to a request with none of these, for its namespace, method and URL |
| CacheAccess.NothingPersonalIsServed | spider/src/cache_request.rs:91-139 | after any run: what is served from the store was sent to such a request and is served to such a request |
| CacheAccess.FreshEntriesAreServed | spider/src/cache_request.rs:178-187 | every GET or HEAD with none of these is answered from the store while its entry is fresh |
| CacheAccess.WhatIsStoredIsServed | spider/src/cache_request.rs:100-139 | what comes in whole and is written is what the next such request for the same gets |
| CacheAccess.UnmodifiedEntriesAreServed | spider/src/cache_request.rs:100-139 | on a 304 the stored response is served and kept, with new header fields and nothing else new |
| CacheAccess.StaleEntriesAreServed | spider/src/cache_request.rs:100-139 | where the origin fails and the library allows it, what is stored is served and kept |
| CacheAccess.OtherAnswersAreAsSent | spider/src/cache_request.rs:308-356 | an answer that does not come from the store is what the origin sends, but for the cookies of a 304 |
| Utf8.ByteLengthIsEncodedLength | scorpion_app/src/iam.rs:1252-1254 | the length a bound is checked against is the number of bytes |
| Utf8.DecodeEncodeThen | examples/mcp_oauth.rs:340-341 | lossy decoding undoes encoding, whatever bytes follow |
| Utf8.Utf8IsEncodings | examples/chrome_proxy_dns_shortcircuit.rs:135 | the bytes taken for UTF-8 are the encodings of strings |
| Utf8.StrayBytesAreReplaced | examples/mcp_oauth.rs:194-197 | a byte that begins no character becomes one U+FFFD, wherever it stands behind text |
| Utf8.CutCharactersAreReplaced | examples/mcp_oauth.rs:194-197 | a character that is cut off by the end of a read becomes one U+FFFD |

## Left out

- SQLite, files, sockets, environment, clocks and serde. The store is a map with the contract that
  `spider/src/features/domain_persistence.rs` implements; an observation is an opaque payload, and a
  stored state always deserializes.
- A store call that waits: a store call takes effect at one instant, or fails. Time-outs of a caller are crashes.
- SHA-256: a digest is known only by what it is the digest of.
- quick-xml: the reader's events are the input, text trimmed as the reader trims it. CDATA, entity references, comments, processing
  instructions and DOCTYPE are one event that is passed over, as the walker passes over them. That the
  events of a document are balanced as far as they go is the reader's doing; what a cut does is stated of any events.
- serde_json's parser: a body is a tree. Objects list their fields in order; that keys are unique is not used.
- The choice of media type in `parse_post_facts`, which is one match, and the tokens of its JSON branch: flattening
  is modelled.
- The JWT decoder and `url::form_urlencoded::parse`: they are parameters of `IamCallback`.
- Routing, HTML and JSON answers, status tables: each is read off one match.
- `iamGroupFacts`: it sorts facts into buckets by the prefix of their names.
- Citation numbers past 2^53, which JavaScript rounds; surrogate halves, which no marker contains.
- http-cache's freshness computation: fresh or stale, written or not, stale on failure or not are arbitrary.
  The library is taken to write the store in the two ways the comments of `cache_request.rs` describe:
  behind the storability check, and unconditionally when a 304 freshens a stored entry; and to obey sections
  3 and 4.3.4 of RFC 9111 there. The conditional header fields it adds to a request are not modelled.
- CacheRules.CacheManager.ExecuteRequest: follows the source in what it does itself; what the library decides on the
  way, fresh or not, storable or not, is given to it, so only the theorems over runs say what comes of it.
- The `x-cache` field and the origin, backend and transport tags derived from it; header values that are not text.
- ProxyForwarder.HandleClient: stops where the head has been sent; relaying the upstream's answer and the
  bidirectional copy after it are not part of this model.
- TraceRuns.LostRepairShowsAwaiting: one run as a witness; when a repair shows the truth is stated exactly by RepairShowsExactly.
- CallbackListener.WaitForCode: the page written back to the browser is not part of this model.
- RequestFramer.Handle: an error of the socket itself ends the connection and is not modelled.
- The remaining crates: crawling, DOM and page rendering, browser automation, benches and launchers.
