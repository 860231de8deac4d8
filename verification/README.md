# KeyBridge in Dafny

KeyBridge is an SSH agent over the Windows certificate store, with a relay that brings a named pipe to
standard input and output. This project models the parts of it that keep state over unbounded input or
unbounded runs, and proves what they promise.

| files | what they model |
|---|---|
| `XShellFraming`, `XShellProxy`, `XShellHandshake`, `XShellSession` | the XShell transport: greeting, re-framing reads that repair sign requests, coalescing writes, a whole connection |
| `Relay`, `RelayProperties`, `RelayLoops` | the relay: two concurrent copy loops as a transition system, what every schedule guarantees, the loops themselves |
| `Capi`, `CapiAgent`, `WrappedAgent` | ownership of certificate references, the cached key list, listing and signing, ordered fallback |
| `Wsl2`, `VSock` | finding WSL2 virtual machines and keeping one listener for each |
| `MemoryMap`, `Pageant`, `AgentServer` | Pageant's request and response hand-off and its shared-memory transaction |
| `TcpOwner`, `Cygwin` | the connection-table scan; the socket file and handshake of Cygwin's emulated sockets |
| `Bytes`, `Streams`, `Wrappers` | words and bytes, connections, options |

What the environment decides (arriving bytes, failing writes, dial results, store contents, schedules, what
an agent or key provider answers) is a parameter, and every statement holds for all of its values. A
connection is the bytes still to arrive, the error they end in, and the set of its writes that fail.
Objects whose methods update fields are classes (`Proxy`, `Agent`, `ContextTable`, `Watcher`,
`MemoryMapConn`, `Conn`); their methods are tied to functions of the state, and lemmas speak of all runs of
those functions. The two places where goroutines interleave, the relay and Pageant's window, are transition
systems over single steps.

## Findings

- A malformed sign request of more than 2^24 - 4 bytes is repaired to more than the server's own limit, so the
  server drops the connection there, and with it every later frame. Every frame before it reaches the server
  (`XShellFraming.ServerReceives`); all of them do if and only if no body is outgrown (`ServerReceivesAllIff`).
- The XShell proxy is usable after some errors and not after others. A failed Write leaves it usable exactly if
  it was refused for not being a four-byte header (`WriteAfterFailedWrite`). The Read after a failed Read
  reports no error exactly if that failure was a truncated body, whose filler it then delivers, or a refused
  length word right before a complete frame, which it then delivers correctly (`ReadAfterFailedRead`). After a
  failed transport write the unsent frame leaves in a malformed message exactly if the next header announces it
  together with the first few chunks of its body (`UnsentFrameLingers`). With an honest header that happens
  exactly if the chunks after some first ones are together as long as the unsent frame, which some splits of
  a body satisfy and a body in one piece never does; otherwise the frame and all that follows is refused
  (`HonestHeaderReleasesIf`, `SplitBodyReleases`). All these inputs lie outside the program's own call pattern:
  `io.ReadFull` and the agent server stop at their first error, and the server writes honest headers and each
  body in one piece. Guarantees about runs stop at the first error.
- The greeting's frame length is computed in 32 bits; the one length word that wraps to an empty request
  makes the handshake index out of range (`XShellHandshake.Handshake`, outcome `Panicked`).
- The header comment of relay.go says in-flight data may be lost. It is exactly the unwritten part of the last
  chunk read on a side. Over all runs that end without a copy error, the pipe's side is lossless if and only if
  -ei is off, and no choice of flags makes the stdin side lossless (`RelayProperties.PipeSideDrainsIff`,
  `StdinSideMayLose`); a copy error on either side can lose a chunk on both (`FatalCanLoseBoth`).
- "No reference is live after Close" is false: an enumeration of the certificate store that fails half-way drops
  the references it had taken (`CapiAgent.LeakExists`). What a run leaks is exactly what those of its loads drop,
  and after a Close nothing is live if and only if that is nothing (`CapiAgent.Session`, `LeaksNothingIff`).
- `GetVMIDs` strips the first and last byte of any argument holding a brace. Its result is free of
  duplicates exactly when that keeps distinct arguments apart, as it does for `{...}` but not for all command
  lines (`Wsl2.CollidingScan`). The watch loop panics exactly if some round sees a lone brace, and loses an open
  listener exactly if in some round two attempts for one VM succeed (`VSock.Wsl2Watcher`, `LosingRun`). On a real
  system that takes one GUID in two kinds of bracket, since `newVSockWorker` refuses anything else, and a second
  listener on the same address, which the model leaves to the environment to grant.
- docs/FLOWS.md (section 6) says the store is loaded once per listing; `SignWithFlags` loads it too when nothing is
  cached, and the model follows the code.

## Model

| member | source | states |
|---|---|---|
| Bytes.WordRoundTrip | app/xshell.go:80 | reading an encoded 32-bit word gives it back, in both byte orders |
| Bytes.BytesRoundTrip | app/xshell.go:153 | encoding a word that was read gives back its four bytes |
| Bytes.WordLayout | app/xshell.go:80 | which byte of an encoded word is which, in both byte orders |
| XShellFraming.StringRoundTrip | app/xshell.go:137-141 | a length-prefixed string followed by anything parses to itself and that rest |
| XShellFraming.UnmarshalIff | app/xshell.go:137-141 | a body parses as a sign request r if and only if it is r's encoding, so short input, surplus bytes and another type all fail |
| XShellFraming.RepairIsExact | app/xshell.go:166-173 | what the proxy forwards parses to r if and only if the client sent r, or sent r's key and data without a flags word and r has flags 0; no other malformed body starts to parse |
| XShellFraming.NormaliseIs | app/xshell.go:166-173 | four zeros are appended exactly to the bodies whose first byte is 13 and that are not a whole sign request; every other body passes unchanged |
| XShellFraming.UnflaggedIsRepaired | app/xshell.go:134-141 | a sign request without its flags word, byte for byte as XShell sends it, is one of the former |
| XShellFraming.NormaliseForgets | app/xshell.go:166-173 | two different bodies are forwarded alike if and only if they are one sign request without its flags word and with flags 0 |
| XShellFraming.FrameRoundTrip | app/xshell.go:149-164 | a framed body is accepted exactly up to the size limit, and then decodes to the body and what follows |
| XShellFraming.FramesStep | app/xshell.go:149-164 | frames are taken from a stream one after the other |
| XShellFraming.ReframeDecodes | app/xshell.go:143-177 | for every client stream, the re-framed stream decodes to exactly the normalised bodies with correct headers and nothing left over |
| XShellFraming.ReframeStep | app/xshell.go:149-174 | a frame of 1 to 16777216 bytes is owed as its normalised body with a matching length |
| XShellFraming.ServerReceives | app/xshell.go:157-173 | the server, under the same size limit, takes the normalised bodies up to the first one that repair pushed past the limit |
| XShellFraming.ServerReceivesAllIff | app/xshell.go:157-173 | every body the proxy takes reaches the server if and only if none was pushed past the limit |
| XShellFraming.OutgrownExists | app/xshell.go:157-173 | such a body exists |
| XShellProxy.Proxy.Read | app/xshell.go:143-177 | the method, buffer reuse and partly filled buffer on error included, computes one step of the specification and fills only the delivered part of the caller's buffer |
| XShellProxy.ReadDeliversOthers | app/xshell.go:149-177 | a body that is not of type 13 is delivered as it came, whatever the room |
| XShellProxy.ReadRepairs | app/xshell.go:149-177 | a sign request without its flags word is delivered with the word, its length four larger |
| XShellProxy.ReadFails | app/xshell.go:149-164 | when a Read fails and with which error, in terms of the bytes that arrive |
| XShellProxy.ReadStepKeepsOwed | app/xshell.go:143-177 | one Read moves bytes from what is owed to the caller; it fails only when nothing is owed, with the error the stream ends in |
| XShellProxy.ReadStepProgresses | app/xshell.go:143-177 | a Read with room delivers something or fails |
| XShellProxy.ReadsDeliverOwed | app/xshell.go:143-177 | over any sequence of buffer sizes, delivered bytes and owed bytes make up the owed stream; at the error all of it was delivered |
| XShellProxy.ReadsReachTheEnd | app/xshell.go:143-177 | with non-empty buffers, more reads than owed bytes reach the error |
| XShellProxy.FramingIsTransparent | app/xshell.go:143-177 | on a new proxy delivered bytes are always a prefix of the re-framed stream, and at the error they decode to the normalised bodies |
| XShellProxy.ReadAfterFailedRead | app/xshell.go:149-164 | the Read after a failed one reports no error if and only if the failure was a truncated body or a refused length word before a complete frame; the first delivers filler, the second the right frames |
| XShellProxy.TruncatedBodyLeavesFiller | app/xshell.go:161-164 | after a truncated body the next Read reports no error and delivers filler |
| XShellProxy.Proxy.Write | app/xshell.go:179-202 | the method computes one step of the write specification, its messages and its whole new state |
| XShellProxy.WriteStepConserves | app/xshell.go:179-202 | one Write keeps sent bytes and held bytes equal to accepted bytes, sends only whole frames and keeps the length invariant until an error |
| XShellProxy.WritesConserve | app/xshell.go:179-202 | so does any run of Writes over a connection that fails anywhere |
| XShellProxy.NonEmptyChunksComplete | app/xshell.go:188-200 | in any split into non-empty chunks only the last chunk completes the body |
| XShellProxy.FrameGoesOutOnce | app/xshell.go:179-202 | header then chunks cause exactly one write, the whole frame, and leave the proxy idle, if and only if only the last chunk completes the body |
| XShellProxy.SessionIsCoalesced | app/xshell.go:179-202 | a whole session of replies, each in any such split, causes one message per frame in order |
| XShellProxy.OverrunIsFinal | app/xshell.go:197-199 | once a frame is overrun every later Write fails and nothing more is sent |
| XShellProxy.WriteAfterFailedWrite | app/xshell.go:179-202 | a failed Write leaves the proxy in a valid state if and only if it was refused for not being a header, and then unchanged |
| XShellProxy.UnsentFrameLingers | app/xshell.go:191-196 | after a failed transport write, for every header and every split of what follows, the unsent frame goes out, in a malformed message, if and only if the header announces it and the first few chunks together; chunks that pass the announced length without that are overrun for good |
| XShellProxy.HonestHeaderReleasesIf | app/xshell.go:184-199 | with a header that announces just its own body that happens if and only if the chunks after some first ones are as long as the unsent frame; otherwise the frame is overrun for good |
| XShellProxy.SplitBodyReleases | app/xshell.go:184-199 | such a body in two non-empty chunks exists |
| XShellProxy.LingeringHeaderExists | app/xshell.go:184-196 | for every chunk that a 32-bit length can announce together with the frame there is a header that lets both out |
| XShellHandshake.GreetsMeansGreeting | app/xshell.go:65-69 | an accepted opening is a greeting with some division of the cookie between frame and following bytes |
| XShellHandshake.EveryDivisionGreets | app/xshell.go:80-111 | every division is accepted up to the frame limit, and whatever it is the session starts at the same place with the same flag |
| XShellHandshake.GreetingLayout | app/xshell.go:65-83 | the greeting byte for byte, opcode 99, and its limit of 16777216 bytes |
| XShellHandshake.ReadInit | app/xshell.go:76-95 | the opening frame is read exactly when complete, within the limit and of the right type; the length wraps in 32 bits |
| XShellHandshake.Handshake | app/xshell.go:75-128 | succeeds if and only if the stream opens with a greeting and the reply can be written; then it consumed 13 + cookie length bytes and answered with the client's flag |
| XShellHandshake.Admit | app/xshell.go:43-54 | an accepted connection gets a proxy that is idle and owes exactly the re-framed rest of the stream |
| XShellSession.ReadFull | app/xshell.go:143-177 | reading exactly n bytes through the proxy takes the next n owed bytes or fails when there are fewer |
| XShellSession.WriteReply | app/xshell.go:179-202 | header and body written by the server become one message |
| XShellSession.ServeAgent | sshagent/server.go:12-21 | the server's loop over the proxy sends exactly one framed reply per owed request, in order, up to the first write that fails, whichever writes fail |
| XShellSession.FirstFault | app/xshell.go:191-196 | how many writes get through: none of these fails, and they are all of them or the next one fails |
| AgentServer.RepliesAre | sshagent/server.go:17 | reply i is that of the agent to request i, its length in front, up to a reply of more than 16777216 bytes |
| XShellSession.DueAre | app/xshell.go:33-55 | the replies a client is due, one by one, and where they stop |
| XShellSession.Connection | app/xshell.go:33-55 | end to end, a client that greets gets the handshake's answer and exactly one message per request, computed on the normalised body, up to the first write that fails; others get nothing |
| Relay.CopyNextConserves | relay.go:190-194 | each event of a copy loop keeps taken bytes equal to delivered bytes plus the held chunk |
| Relay.NextKeepsFlows | relay.go:125-176 | each step of the process keeps conservation on both sides and the record of pipe writes |
| Relay.NextKeepsMark | relay.go:130-143 | each step keeps the close-write marker last on the pipe |
| Relay.NextKeepsEndings | relay.go:148-185 | each step keeps the conditions under which the process ends |
| Relay.RunKeepsInv | relay.go:125-185 | every schedule keeps all of it |
| RelayProperties.RelayConserves | relay.go:125-185 | in every reachable state, stopped or not, delivered bytes are a prefix of the bytes read and the difference is part of the last chunk, held by that side's loop |
| RelayProperties.NormalEndIsLossless | relay.go:164-176 | a process that returns because stdin is done has delivered all of stdin and all of the pipe up to their ends |
| RelayProperties.NormalEndHappens | relay.go:125-176 | without -ei and -ep, for any bytes on stdin and on the pipe, there is a run that carries exactly these over and returns because stdin is done, no time having passed |
| RelayProperties.WaitingReturnsAtOnce | relay.go:175-176 | in every reachable state that waits while stdin is done, the next step can return, with no time passing |
| RelayProperties.CopyingTakesAnyAnswer | relay.go:190-194 | a copying side takes whatever its reads and writes return, whatever the other side does; an error ends the process, after what was read with it is written |
| RelayProperties.StdinGoroutineFinishes | relay.go:130-155 | behind the end of stdin the goroutine half-closes and then exits or signals, never held up |
| RelayProperties.EarlyExitsDrainOneSide | relay.go:148-185 | an exit under -ei has delivered all of stdin, one under -ep or by timeout all of the pipe |
| RelayProperties.StdinExitCanLose | relay.go:148-150 | under -ei a chunk from the pipe can be lost |
| RelayProperties.PipeExitCanLose | relay.go:167-169 | under -ep a chunk from stdin can be lost |
| RelayProperties.TimeoutCanLose | relay.go:175-185 | so it can when the drain timeout runs out |
| RelayProperties.FatalCanLoseBoth | relay.go:190-194 | a copy error on either side can lose a chunk on both |
| RelayProperties.PipeSideDrainsIff | relay.go:125-185 | in all runs that end without a copy error everything from the pipe reaches stdout, if and only if -ei is off |
| RelayProperties.StdinSideMayLose | relay.go:164-185 | under no flags does everything from stdin reach the pipe in all such runs |
| RelayProperties.CloseWriteIsLast | relay.go:127-150 | close-write happens at most once, only after all of stdin is on the pipe, nothing follows it, and an exit under -ei or a normal return has done it when asked for and possible |
| RelayProperties.NextDecreasesRemaining | relay.go:164-185 | after the pipe's end each main or clock step decreases the measure and no step of the other goroutine increases it |
| RelayProperties.EndIsBounded | relay.go:164-185 | after the pipe's end any schedule has boundedly many main or clock steps and takes at most the drain timeout of model time |
| RelayProperties.DrainTakesFullTimeout | relay.go:175-185 | the drain timer ends the process after exactly five seconds |
| RelayProperties.TimeMayPass | relay.go:164-185 | time passes freely while the pipe is copied and up to the deadline while the timer runs |
| RelayProperties.EndIsNeverBlocked | relay.go:164-185 | until the process ends one such step is possible |
| RelayProperties.PipeExitIsImmediate | relay.go:167-169 | under -ep no time passes after the pipe's end and the main goroutine's first step ends the process |
| RelayLoops.DialPipeWithPoll | relay.go:196-213 | dialling returns precisely the first outcome not worth retrying, after one sleep per earlier one |
| RelayLoops.CopyOrFatal | relay.go:190-194 | the copy loop's result and bytes for any source and any room at the destination; the loop is a run of the transition system's copy events |
| RelayLoops.ChunksInOrder | relay.go:190-194 | what the reads bring is their chunks in order |
| Capi.ContextTable.Free | capi/wincapi.go:209-211 | only a live reference is freed, and never again |
| Capi.ContextTable.Copy | capi/wincapi.go:213-223 | copying takes a new reference to the context of a live one |
| Capi.Enumerate | capi/wincapi.go:246-280 | the enumeration takes one reference per certificate with a key that parses, in order |
| Capi.CollectedOne | capi/wincapi.go:260-278 | a reference is taken to an entry exactly if it has a key, parses and can be duplicated; an entry that is no certificate ends the enumeration |
| Capi.CollectedInOrder | capi/wincapi.go:246-280 | references are taken in the order of the entries |
| Capi.CertsForAre | capi/wincapi.go:263-278 | certificate j is a new reference to the context of the j-th entry collected, with what parsing made of it |
| Capi.CompletesIff | capi/wincapi.go:247-259 | the enumeration fails half-way exactly if only certificates come before a failure |
| Capi.LoadUserCerts | capi/wincapi.go:225-282 | a completed load owns one new reference per certificate; a failed one has dropped exactly those collected before the failure |
| Capi.Sign | capi/wincapi.go:284-334 | signing needs a live context; an acquired key is reset after the attempt whatever its result, then freed exactly when the caller owns it |
| CapiAgent.ListingIgnoresNumbers | sshagent/capi_agent.go:49-82 | what a store lists does not depend on how references are numbered |
| CapiAgent.OffersAre | sshagent/certificate.go:37-60 | what a store certificate is listed as: nothing unless allowed and RSA or ECDSA; else under its common name, and again under the key id of the file found by serial number, or failing that by common name, if the keys match and duplication succeeds |
| CapiAgent.ListingInOrder | sshagent/capi_agent.go:49-82 | a store is listed certificate by certificate, in order |
| CapiAgent.UseSignerChooses | sshagent/capi_agent.go:140-165 | flags 0, 2 and 4 ask for the default, the SHA-256 and the SHA-512 algorithm, the last two only on RSA keys; anything else fails without asking |
| CapiAgent.RSAAlgorithms | sshagent/capi_agent.go:151-158 | the signature of an RSA key for flags 0, 2 and 4 is the one made with the default, the rsa-sha2-256 and the rsa-sha2-512 algorithm |
| CapiAgent.ListedMeansSignable | sshagent/capi_agent.go:137-168 | signing reports "not found" if and only if no listed identity has the blob |
| CapiAgent.Agent.FreeAll | sshagent/capi_agent.go:28-30 | frees exactly the references of the keys, each once |
| CapiAgent.Agent.Close | sshagent/capi_agent.go:27-40 | afterwards no reference but leaked ones is live; the reported error is the last key's |
| CapiAgent.Agent.LoadSSHCertificate | sshagent/certificate.go:37-60 | pairs by serial number, else by comment, if the keys match and duplication succeeds; the pair owns a new reference while its signer keeps the original |
| CapiAgent.RoundKeepsHolding | sshagent/capi_agent.go:49-82 | one round of the load keeps live references accounted for and every signer's reference owned by a listed key |
| CapiAgent.Agent.LoadKey | sshagent/capi_agent.go:50-81 | a certificate that is not offered is freed; one that is offered yields its identity and at most one paired one |
| CapiAgent.Agent.KeepOffered | sshagent/capi_agent.go:49-82 | the keys are the flat map over the certificates and own all references that stay live |
| CapiAgent.Agent.LoadCerts | sshagent/capi_agent.go:42-84 | the load fills the cache with the store's listing, or leaks exactly the dropped references |
| CapiAgent.Agent.List | sshagent/capi_agent.go:86-106 | the list is the flat map over the store as it is now, old references being freed first |
| CapiAgent.Agent.CallSigner | sshagent/capi_agent.go:137-165 | a signer is only called while the reference it uses is live |
| CapiAgent.Agent.SignWithFlags | sshagent/capi_agent.go:119-169 | a cached list is used unchanged and the first key with the blob signs, with the algorithm the flags choose; nothing cached loads the store |
| CapiAgent.Session | sshagent/capi_agent.go:22-169 | over any sequence of operations live references are exactly the cached keys' and the leaked ones; the number leaked is exactly what the half-failed loads dropped; after a final close nothing is live if and only if nothing leaked; every listing is the key list it leaves, every signing answer is that of the first matching key of the list at that moment, and signing with a list present leaves it alone |
| CapiAgent.LeaksNothingIff | capi/wincapi.go:246-280 | a run leaks nothing if and only if none of its loads fails half-way with references taken |
| CapiAgent.LeakExists | capi/wincapi.go:246-280 | there is a store whose listing leaks one reference |
| CapiAgent.ListingAndSigningAgree | sshagent/capi_agent.go:86-169 | any number of signing requests after a listing, nothing is loaded, the key behind the first entry of that listing with the blob is asked for the algorithm the flags choose, and "not found" is the answer if and only if there is none |
| WrappedAgent.List | sshagent/wrapped_agent.go:21-34 | all agents' keys in order, or the first error, no agent being asked after it |
| WrappedAgent.ConcatInOrder | sshagent/wrapped_agent.go:21-34 | the listings stand one after the other |
| WrappedAgent.SignWithFlags | sshagent/wrapped_agent.go:40-62 | the first agent that succeeds answers and no later one is asked; if none does, agent 0's error |
| Wsl2.SplitJoin | utils/wsl2.go:43 | splitting a command line loses nothing and no argument holds a space |
| Wsl2.FindVMArgument | utils/wsl2.go:44-49 | the backward search finds an argument if and only if one holds byte 0x7B, and then the last one that does |
| Wsl2.CollectArguments | utils/wsl2.go:40-50 | the map's keys are the distinct VM arguments |
| Wsl2.VMArgumentsAre | utils/wsl2.go:40-50 | the VM arguments are, over all lines, the last word with a brace |
| Wsl2.StripIs | utils/wsl2.go:54 | stripping leaves everything between the first and the last byte |
| Wsl2.DistinctIffApart | utils/wsl2.go:52-55 | the ids are free of duplicates if and only if stripping keeps distinct arguments apart |
| Wsl2.BracedStripsApart | utils/wsl2.go:52-55 | it does when all arguments have the form {...} |
| Wsl2.GetVMIDs | utils/wsl2.go:29-57 | one id per distinct argument in some order, none for a failed query, a panic exactly for a lone brace, duplicates exactly when stripping collides |
| Wsl2.CollidingScan | utils/wsl2.go:29-57 | for any id there are two command lines on which the scan returns it twice |
| VSock.WithoutRepeats | app/vsock.go:78-87 | a difference keeps the repetitions of what it keeps |
| VSock.WithoutInOrder | app/vsock.go:78-87 | a difference keeps the order of what it keeps |
| VSock.VmidDiff | app/vsock.go:67-89 | the added and the removed ids, in order and with repetitions |
| VSock.OpenedIff | app/vsock.go:108-115 | a VM gets a listener if and only if some attempt for it does not fail |
| VSock.OpenedTwiceIff | app/vsock.go:108-115 | it gets two if and only if two attempts for it do not fail |
| VSock.OpenedOnceIff | app/vsock.go:108-115 | when no attempt fails, two listeners are opened for one VM if and only if it is new and listed twice |
| VSock.Watcher.AddWorkers | app/vsock.go:108-115 | a new VM gets a worker if one of the attempts for it succeeds; a listener is lost if and only if two do |
| VSock.Watcher.RemoveWorkers | app/vsock.go:116-122 | the workers of vanished VMs are closed and forgotten |
| VSock.Watcher.Round | app/vsock.go:106-123 | VMs that stay keep their worker or lack of one, new ones get what their attempts give; a listener is lost if and only if two attempts for one new VM succeed |
| VSock.PresenceStart | app/vsock.go:103-123 | the round where a VM's current unbroken presence began |
| VSock.ServedStep | app/vsock.go:103-123 | the history characterisation carries over one round |
| VSock.OpensOnceStep | app/vsock.go:103-123 | so does the condition under which no listener is lost |
| VSock.ApartOpensOnce | app/vsock.go:103-123 | that condition holds, whatever fails, if stripping keeps apart the arguments each round sees |
| VSock.Wsl2Watcher | app/vsock.go:91-131 | over any history a VM has a worker if and only if creating one succeeded when its current presence began; the loop panics if and only if a round sees a lone brace, at the first such round; open listeners are exactly the workers' if and only if no round opened two for one VM |
| VSock.LosingRun | app/vsock.go:108-115 | for any id there is a run that loses an open listener |
| MemoryMap.ConnStepsKeepValid | utils/mmap.go:26-62 | reads deliver a prefix of the request; there is one response after Close and none before, in whatever order the calls come |
| MemoryMap.ConnAnswers | utils/mmap.go:26-62 | what each call returns: only errors after Close; before it the next bytes of the request, the end of file, or the response |
| MemoryMap.MemoryMapConn.Read | utils/mmap.go:26-38 | the method computes the specified step |
| MemoryMap.MemoryMapConn.Write | utils/mmap.go:40-47 | writes append until Close |
| MemoryMap.MemoryMapConn.Close | utils/mmap.go:49-62 | the first Close sends all that was written, or an error if nothing was |
| MemoryMap.SSHAgentHandler | sshagent/server.go:12-21 | the one response holds everything the agent server writes for the request |
| Pageant.WndProc | utils/pageant.go:218-243 | for all header values, what is forwarded, when the result is 1, and that shared memory changes only then, in its front; stated with the functions that the window's transitions use |
| Pageant.ForwardedIs | utils/pageant.go:218-230 | what is forwarded, with the length computed modulo 2^32 and limited to 8192 |
| Pageant.FinishIs | utils/pageant.go:235-243 | a reply of 1 to 8192 bytes gives 1 and replaces the front of the shared bytes; anything else gives 0 and changes nothing |
| Pageant.HeaderDecides | utils/pageant.go:219-243 | with the agent's handler a header of 1 to 8188 gets the framed reply; any other, wrapping or not, gets none |
| Pageant.NextKeepsWindow | utils/pageant.go:228-234 | a connection is open exactly while the window waits for it |
| Pageant.NextKeepsCount | app/pageant.go:24-39 | the wait group counts the running handlers |
| Pageant.RunCollectsWrites | utils/mmap.go:40-47 | the buffer is the concatenation of that handler's writes before its Close, under any interleaving |
| Pageant.ResponsesAreExact | utils/mmap.go:26-62 | every accepted request gets exactly one response, at its Close: all writes before it, or an error if there were none |
| Pageant.NextKeepsOrder | utils/pageant.go:228-242 | connections are answered one at a time, in the order they were accepted |
| Pageant.TransactionsAreExact | utils/pageant.go:218-243 | in any interleaving a finished transaction that was forwarded went to the next connection in order, which got the announced bytes, and the shared bytes end up overlaid with what that handler wrote before its Close, if that fits; one that was not forwarded changed nothing |
| Pageant.AgentTransactionsAreExact | utils/pageant.go:218-243 | with handlers that serve the agent, in any interleaving, a header of 1 to 8188 whose reply fits gives 1 and the framed reply in front of the shared bytes; anything else gives 0 and changes nothing |
| Pageant.RequestIsServed | utils/pageant.go:228-242 | from every reachable state with an idle window and an accepting loop a request that is forwarded reaches a new handler, and whatever that writes before it closes becomes this request's outcome |
| Pageant.AgentClientIsServed | utils/pageant.go:228-242 | so a client of the agent gets its result in every such state |
| Pageant.RefusedAtOnce | utils/pageant.go:219-226 | a request that is not forwarded is over at once |
| Pageant.HandlersNeverBlock | utils/mmap.go:26-62 | a running handler can always read, write and close, and return once closed |
| Pageant.CanReturn | app/pageant.go:24-39 | after a cancellation, from every state of the invariant, Run can come to its end |
| Pageant.ClosedHasTransaction | utils/pageant.go:232-243 | every connection that is closed had such a transaction |
| Pageant.ReturnsAfterAnswering | app/pageant.go:24-39 | Run returns only after every accepted request has been answered |
| Pageant.CloseNeverBlocks | utils/pageant.go:232-234 | an open connection's Close always finds the window waiting for it |
| TcpOwner.SwapPortReadsNetworkOrder | utils/tcpowner.go:36-38 | the swapped 16 bits of a word in memory are its first two bytes in network byte order |
| TcpOwner.WordLayout | utils/tcpowner.go:25-32 | which byte of memory each part of a word is |
| TcpOwner.SwapPortTwice | utils/tcpowner.go:36-38 | swapping twice restores a 16-bit port and the high half is ignored |
| TcpOwner.FindOwner | utils/tcpowner.go:73-88 | the owner, bytes 20 to 23, of the first row whose bytes 8 and 9 are the port in network order, among the rows claimed and present, or none if there is none; 32-bit offsets neither wrap nor pass the end |
| Cygwin.UUIDToString | utils/misc.go:10-21 | the loop fills all 35 positions with the text of the secret |
| Cygwin.TextAt | utils/misc.go:10-21 | where the two lower-case digits of each byte of the secret stand in the text |
| Cygwin.UUIDRoundTrip | utils/misc.go:10-21 | reading the four groups as little-endian words restores the 16 bytes |
| Cygwin.UUIDTextInjective | utils/misc.go:10-21 | distinct secrets have distinct texts |
| Cygwin.SocketFileTells | app/cygwin.go:35 | the literal parts of the socket file, and that port and secret are found in it again |
| Cygwin.CygwinHandshake | app/cygwin.go:43-66 | accepts exactly a client that sends the secret and its ids, answers with both process ids replaced, and sends nothing to others |
| Cygwin.ServeFileClient | app/cygwin.go:35-66 | a client that derives the secret from the file is accepted if and only if the reply with the ids can be written; its own ids come back and nothing after them is taken |

## Left out

- Win32 calls, the registry, WMI, hvsock, named pipes and TCP themselves: their results are parameters.
- `golang.org/x/crypto/ssh` and its agent package are not part of this model; sign-request parsing and the serve loop follow their documented behaviour, and agents, keys and signatures are opaque values. A successful signing call without a signer (sshagent/rsa.go:37-39) is one such signature value.
- Extended key usage (sshagent/eku.go): the verdict is a field of the certificate.
- The tray, menus, notifications, clipboard, DPI, elevation and service installation: user interface.
- `winPath2Unix`, `RandomString`, the Hyper-V client agent, the in-memory key ring, `Add`, `Remove`, `Lock` and the other one-call delegations: single-branch code.
- Checking the owner of the Pageant file mapping and the smart card service: yes-or-no answers of Windows before the modelled code runs.
- VSock.Wsl2Watcher: states listeners only while the loop runs, because on cancellation it returns without closing them.
- Pageant.TransactionsAreExact: takes the client to leave its shared bytes alone while it waits for the answer.
- Pageant requests never accepted because the context was cancelled stay blocked in the window; the response statements are about accepted requests.
- The retry loop of `tcpConnOwnerPID` around the system call: only its scan of the filled buffer is modelled.
- TcpOwner.FindOwner: asks for a buffer shorter than 2^32 - 12 bytes, since for longer ones the last 32-bit offset can wrap.
- XShellProxy.Proxy.Write: lengths are 64-bit integers; on 32-bit builds the conversion at app/xshell.go:186 could overflow.
- A transport write that fails after part of its bytes went out counts as nothing sent on a connection.
- RelayProperties.EndIsBounded: takes closing stdout to return, and model time to pass only while the main goroutine waits or copies.
- Relay: the buffer size of `io.Copy` and its shortcuts between file types; chunks are of any size.
- WrappedAgent.SignWithFlags: takes what each agent would answer as given, so the choice between an agent's `SignWithFlags` and `Sign` is part of that answer.
- Capi.ContextTable.Free: a reference counts as released even when Windows reports an error.
