# Verified models of the cjdns core

This project models the parts of cjdns whose correctness depends on a whole state machine rather than on
one function, and proves what they are for.

* **CryptoAuth** (`CryptoSession.dfy`, `CryptoRules.dfy`, `CryptoAuth.dfy`, `CryptoNetwork.dfy`). A session is modelled twice: as a
  class whose methods update the fields of the C structure in the order of the C code, with every handshake
  assertion as an `assert`, and as functions on session values; `CryptoRules.dfy` says field by field what these do. Cryptography is symbolic: a key pair is a number,
  a shared secret is an unordered pair of numbers with an optional password, a box opens exactly when secret and
  nonce match, and a new temporary key is one that nobody has made before. Two sessions then talk over a network
  that loses, reorders and duplicates packets, time out, are reset and change passwords; the safety results hold in
  every state of every run.
* **The replay window** (`ReplayProtector.dfy`): a 64-bit register over an unbounded set of nonces.
* **The hierarchical allocator** (the files `Allocator*.dfy`, with `Lists.dfy`). Allocators are indices; parent, sibling
  and first-child pointers, the two adoption lists and the isFreeing flags are sequences indexed by them.
  `AllocatorTree` is the code: its methods walk and mend these pointers and lists in place, with the code's own
  assertions. `graph.children` is what the sibling pointers mean, a list per allocator; no method walks it. The
  central result says which allocators a free destroys: exactly those that the root can reach, along natural and
  adopted links, only through the freed one.
* **The de-framer** (`Framing.dfy`) against a parser of the whole stream.
* **The sorted dictionary** (`BencDict.dfy`), **the asynchronous queue pair** (`ASynchronizer.dfy`) and **the XOR
  order on addresses** (`Address.dfy`).

`CTypes.dfy` holds what they share: pointers that may be NULL and the ranges of C integers.

Conventions. Randomness (new temporary keys), the clock, what a callback answers, and what C leaves undefined (the
`junk` of an over-wide shift) are parameters. An assertion or an out-of-memory failure that ends the program is an
outcome (`Stopped`, `Unaccounted`, `Abandoned`, `Refused`, `OutOfMemory`, `ok == false`). Integer widths are explicit where they matter:
nonces and counters are taken modulo 2^32, elapsed time modulo 2^64, length differences as 32-bit ints.

Where the code falls short of its purpose, the model follows the code and says exactly when:

* `isAncestorOf` (memory/Allocator.c:661-666) never advances in its inner loop. `WrittenIsAncestorOf` is that code to
  the letter, and `AsWrittenExact` says for every pair whether it answers yes, answers no or never returns;
  `AdoptReaches` and `DisownReaches` say where adopting and disowning then end. `IsAncestorOf`, which the other
  operations use, walks the list to its end, as the loop is evidently meant to.
* Memory is stranded when the last job that a detached subtree waits for is cancelled (`CancelOnFree`), and when a job
  is registered with a subtree whose callbacks have already been called (`OnFree`); memory in use is released with a
  child made under a freeing allocator (`Child`), and when the only job of a live allocator is completed before it was
  called (`OnFreeComplete`). The exact conditions are in the contracts; `AllocatorExamples.dfy` has concrete histories
  of the first three.
* A free stops the program when it marks 10000 levels. `FreeDone` has a condition that is necessary and one that is
  sufficient, both on the links before the call, and `TooDeepTree` is such a tree.
* The counter bumps at crypto/CryptoAuth.c:756 and 878 are not covered by the wrap check at 485 (`DecryptSound`), and
  a network that repeats one packet can make the first of them stop the program (`WrapReachable`).
* `String_compare` disagrees with `String_equals` for strings that extend one another by a multiple of 2^32 bytes
  (`ZeroMeansEqual`) and is not antisymmetric at odd multiples of 2^31 (`AntisymmetryExact`); it is an order on the
  strings of at most n bytes exactly when n is below 2^31 (`OrderExactly`).

## Model

| member | source | states |
|---|---|---|
| CryptoSession.EncryptSound | crypto/CryptoAuth.c:474-523 | Encryption from a sound session leaves a sound one, and a traffic nonce is always below the wrap limit 0xfffffff0. |
| CryptoSession.DecryptSound | crypto/CryptoAuth.c:555-909 | From every sound session, for every packet: no handshake assertion fails and the invariant is kept if and only if the packet does not bump a counter across 2^32. |
| CryptoSession.HeadroomSuffices | crypto/CryptoAuth.c:756-878 | A session three short of the end of its counter cannot wrap, whatever packet arrives. |
| CryptoSession.WrapExample | crypto/CryptoAuth.c:741-826 | A concrete sound session and repeat key packet for which the assertion at line 824 fails. |
| CryptoSession.FreshWindowAccepts | crypto/CryptoAuth.c:871-880 | With a cleared replay window the first packet that decrypts always establishes the session. |
| CryptoRules.SecretMeaning | crypto/CryptoAuth.c:82-102 | Two secrets are equal if and only if they come from the same two key pairs, in either order, and the same password or none. |
| CryptoRules.NonceMeaning | crypto/CryptoAuth.c:241-275 | A counter is opened exactly under the same number in the opposite role; the initiator's is in the second word. |
| CryptoRules.ResetExact | crypto/CryptoAuth.c:304-316 | After a reset every negotiated field and the replay window are initial; nothing else changes. |
| CryptoRules.TimeoutExact | crypto/CryptoAuth.c:318-339 | A session is left alone in SENT_HELLO, while the silence is below the shorter limit, and, when established, below the longer one; otherwise it starts over and its clock is renewed. |
| CryptoRules.SendHelloExact | crypto/CryptoAuth.c:341-471 | In states 0 and 1, and after a timeout or at counter 0xfffffff0, a hello with every field of it and of the new state; a repeat has the same temporary key. |
| CryptoRules.SendKeyExact | crypto/CryptoAuth.c:341-471 | In states 2 and 3 the same for the key packet. |
| CryptoRules.SendTrafficExact | crypto/CryptoAuth.c:485-521 | From state 4 on the very message, with the secret of both temporary keys and the counter in the word of the role. |
| CryptoRules.HandshakeAccepted | crypto/CryptoAuth.c:555-832 | A handshake packet is accepted, and its message handed on, if and only if sender, password, role, box, key and repetition are right; no unrecognised or disallowed password is taken, and none may be missing where one is required. |
| CryptoRules.HandshakeRefused | crypto/CryptoAuth.c:561-711 | Each error is given exactly when its check is the first to fail. |
| CryptoRules.HelloEffect | crypto/CryptoAuth.c:761-829 | What an accepted hello does: a new key makes any session the responder, unless it stands firm; a repeat changes nothing. |
| CryptoRules.KeyEffect | crypto/CryptoAuth.c:719-829 | What an accepted key packet does to key, counter, secret and window, before and after traffic has been sent. |
| CryptoRules.TrafficExact | crypto/CryptoAuth.c:854-898 | Traffic is accepted if and only if keys were exchanged, the box opens and the counter is unseen; each error, the message handed on and every field afterwards. |
| CryptoAuth.SessionPvt.Reset | crypto/CryptoAuth.c:304-316 | Returns every negotiated field, and the replay window, to its initial value and keeps the rest. |
| CryptoAuth.SessionPvt.ResetIfTimeout | crypto/CryptoAuth.c:318-339 | Resets exactly when the silence, in unsigned arithmetic, exceeds the limit for the state, and never in SENT_HELLO. |
| CryptoAuth.SessionPvt.EncryptHandshake | crypto/CryptoAuth.c:341-471 | Sends hello or key packet per state with the right secret; all four assertions hold for every sound session. |
| CryptoAuth.SessionPvt.EncryptPacket | crypto/CryptoAuth.c:474-523 | The updated fields and the packet are those of the session function, and the session stays sound. |
| CryptoAuth.SessionPvt.DecryptMessage | crypto/CryptoAuth.c:531-546 | A box that does not open leaves the replay window untouched; one that opens is filed in it, and refused exactly when the window has seen it. |
| CryptoAuth.SessionPvt.AcceptKey | crypto/CryptoAuth.c:719-759 | Which states take a key packet, what becomes of peer key, secret and counter, and that the assertions at 737, 742 and 754 hold. |
| CryptoAuth.SessionPvt.AcceptHello | crypto/CryptoAuth.c:761-818 | Which hellos are taken, refused or ignored, and that the counter never goes backward afterwards. |
| CryptoAuth.SessionPvt.DecryptHandshake | crypto/CryptoAuth.c:555-832 | Every check in order, every transition of the handshake, and the outcome, agree with the session function; every assertion on the way holds, but for the one at 824 when the counter wraps. |
| CryptoAuth.SessionPvt.DecryptPacket | crypto/CryptoAuth.c:835-909 | The same for the whole of decryption, with the exact condition under which the session stays sound. |
| CryptoNetwork.StepKeeps | crypto/CryptoAuth.c:474-909 | The two-party invariant (keys, roles, records, counters, windows) is kept by sending, timing out, resetting, changing the password, and receiving any packet that does not bump a counter across 2^32. |
| CryptoNetwork.AlwaysInvariant | crypto/CryptoAuth.c:474-909 | Hence it holds in every state of every run over a lossy, reordering, duplicating network, up to such a packet. |
| CryptoNetwork.OpensMeansSent | crypto/CryptoAuth.c:241-275 | A traffic packet that opens was sent by the peer under the same two temporary keys, in the opposite role. |
| CryptoNetwork.Agreement | crypto/CryptoAuth.c:854-898 | In every run, whatever a side has accepted the peer has sent: same pair of keys, same counter, same payload, opposite isInitiator. |
| CryptoNetwork.NoncesNeverRepeat | crypto/CryptoAuth.c:518-521 | In every run no two traffic packets of either side share secret and nonce encoding, none of one temporary key share a counter, and all counters lie in [4, 0xfffffff0). |
| CryptoNetwork.DeliveredAtMostOnce | crypto/CryptoAuth.c:531-546 | In every run, through all clearings of the replay window, no sent packet is accepted twice. |
| CryptoNetwork.DeliveredWasSent | crypto/CryptoAuth.c:474-909 | In every run, whatever message a side hands on, in the handshake or after it, the peer was given to send in an earlier step. |
| CryptoNetwork.AcceptedWasSent | crypto/CryptoAuth.c:518-521 | For every accepted record there is an earlier send step of the peer with that very message. |
| CryptoNetwork.AuthenticationShown | crypto/CryptoAuth.c:581-601 | In every state of every run, a session that requires authentication and has a key of its peer was sent that key by the peer with a password that it recognises and allows to this peer. |
| CryptoNetwork.TalkReachable | crypto/CryptoAuth.c:474-909 | A run in which both sides become established and each hands on the other's message. |
| CryptoNetwork.EstablishedAgreement | crypto/CryptoAuth.c:854-881 | In every state of every run, an established session has accepted traffic under its present keys and role, the peer sent it, and held the mirrored keys with the same secret and the opposite role when it did. |
| CryptoNetwork.EstablishedKept | crypto/CryptoAuth.c:854-898 | Every step keeps that an established session has accepted traffic under its present keys. |
| CryptoNetwork.OneSecret | crypto/CryptoAuth.c:507-511 | When an initiator holds the key its peer is using, the peer holds the initiator's, both derive one secret, and each opens what the other encrypts. |
| CryptoNetwork.SecretIsCurrent | crypto/CryptoAuth.c:499-518 | In every state of every run, traffic is encrypted and opened with the secret of the present pair of temporary keys, also after a new key packet; and a packet trips an assertion or breaks the session if and only if it bumps a counter across 2^32. |
| CryptoNetwork.WrapReachable | crypto/CryptoAuth.c:741-826 | A run from two new sessions, with one handshake, one traffic packet and then repeats of one key packet, that ends in the failure of the assertion at line 824. |
| CryptoNetwork.SecretDetermines | crypto/CryptoAuth.c:82-102 | Two key pairs with one secret and one key in common have the other key in common. |
| CryptoNetwork.LowerKeyWins | crypto/CryptoAuth.c:713-789 | When hellos cross, the side with the lower permanent key is unmoved and the other becomes the responder. |
| CryptoNetwork.CrossedHellosResolve | crypto/CryptoAuth.c:713-881 | After crossed hellos the exchange that follows takes both sides to established with equal secrets and the lower key as initiator. |
| ReplayProtector.CheckRefinesSet | crypto/ReplayProtector.h:66-104 | A nonce is accepted if and only if it is unseen and not below the window; the window then stands for the enlarged set. |
| ReplayProtector.NeverAcceptedTwice | crypto/ReplayProtector.h:66-104 | Over any sequence of calls no nonce is accepted twice. |
| ReplayProtector.NeverRefusedWithin47 | crypto/ReplayProtector.h:75-96 | Over any sequence of calls an unseen nonce is refused only when an accepted one lies more than 47 above it. |
| ReplayProtector.LostIsUnseen | crypto/ReplayProtector.h:45-54 | A shift is charged with exactly the nonces that leave the window unseen. |
| ReplayProtector.RunLossExact | crypto/ReplayProtector.h:77-95 | After any run whose shifts fit an int, losses plus accepted nonces below the window equal the window's base. |
| ReplayProtector.RunCountsEveryCall | crypto/ReplayProtector.h:68-103 | Accepted, duplicate and out-of-range calls add up to the calls made. |
| ReplayProtector.RunCountsExact | crypto/ReplayProtector.h:68-101 | After any run receivedOutOfRange counts the calls below the window as it then was, and duplicates those in it that had been accepted. |
| ReplayProtector.CheckCounts | crypto/ReplayProtector.h:66-104 | What one call does to either counter, and where the window then begins. |
| ReplayProtector.SlideExact | crypto/ReplayProtector.h:75-96 | The window moves by the least number of steps of 32 if all they leave behind was accepted, and else to 47 below the nonce. |
| ReplayProtector.Protector.CheckNonce | crypto/ReplayProtector.h:66-104 | The shifting loop terminates and computes the window and answer of the specification. |
| AllocatorDominance.FreeMarksDominated | memory/Allocator.c:348-397 | A completed free marks exactly the allocators all of whose chains of natural or adopted parents to the root pass through the freed one; survivors keep one live natural parent and exactly their links to survivors. |
| AllocatorDominance.ChainsStayLive | memory/Allocator.c:348-397 | At every moment of a free, an allocator with a chain around the freed one is unmarked. |
| AllocatorDominance.SurvivorHasChain | memory/Allocator.c:388-397 | At the end every unmarked allocator has such a chain. |
| AllocatorGraph.UnadoptMirror | memory/Allocator.c:322-345 | Dropping an adoption edge keeps the two adoption lists mirror images. |
| AllocatorGraph.DisconnectLinked | memory/Allocator.c:275-297 | Taking a child from its parent keeps tree, mirror and acyclicity. |
| AllocatorSiblings.UnthreadKeeps | memory/Allocator.c:281-296 | The pointer surgery of unlinking, in all its cases, takes exactly that child out of the list that firstChild, nextSibling and lastSibling form, and disturbs no other list. |
| AllocatorSiblings.DisconnectAsserts | memory/Allocator.c:282-292 | The paranoid assertions of that surgery hold. |
| AllocatorSiblings.ThreadKeeps | memory/Allocator.c:314-319 | The pointer surgery of linking puts the child in front of that list and disturbs no other. |
| Allocator.AllocatorTree.Disconnect | memory/Allocator.c:275-297 | The assignments in place do what these two say, and the assertions hold. |
| Allocator.AllocatorTree.Connect | memory/Allocator.c:300-320 | The same for linking. |
| AllocatorGraph.ConnectLinked | memory/Allocator.c:300-320 | Putting a child under a higher allocator keeps them too. |
| AllocatorGraph.AdoptionEdge | memory/Allocator.c:356-370 | No freeing allocator has, or appears in, a parents list. |
| AllocatorFree.PivotCounts | memory/Allocator.c:358-364 | A pivot removes the natural parent link of one allocator and changes no other link count. |
| AllocatorFree.PivotProgress | memory/Allocator.c:358-364 | Rescuing an adopted child keeps the invariant of a running free. |
| AllocatorFree.MarkProgress | memory/Allocator.c:365-375 | So does marking one without adopters, all of whose original parents are then marked. |
| AllocatorRounds.LeafChild | memory/Allocator.c:373 | An allocator is not yet freeing when its turn comes. |
| AllocatorRounds.RoundOver | memory/Allocator.c:390-394 | A round that marks nobody leaves no live allocator under a marked one. |
| AllocatorRounds.LevelIsDepth | memory/Allocator.c:376-396 | An allocator marked in round d lay d links below the freed one. |
| AllocatorRounds.ChainFits | memory/Allocator.c:390-396 | A chain of links is no longer than there are allocators, so the bound of 10000 rounds is safe for fewer. |
| AllocatorSiblings.WalkOn | memory/Allocator.c:377-383 | In a child list that visits have thinned out behind the walk, nextSibling of the allocator about to be visited is its successor in the list as it was. |
| Allocator.AllocatorTree.PivotToAdopter | memory/Allocator.c:355-364 | Moves an allocator under its first adopter, which is not freeing, and consumes that adoption. |
| Allocator.AllocatorTree.DropAdoptions | memory/Allocator.c:365-369 | Cuts all adoption edges below an allocator; the assertion that the children are not freeing holds. |
| Allocator.AllocatorTree.PivotChildren | memory/Allocator.c:355-383 | On the last level, the walk along nextSibling through a list that changes under it visits every child exactly once. |
| Allocator.AllocatorTree.PivotLevel | memory/Allocator.c:348-386 | One round visits every allocator of its depth exactly once; above the last level no child list changes. |
| Allocator.AllocatorTree.PivotChildrenToAdoptedParents | memory/Allocator.c:388-397 | The allocator only moves exactly when it has an adopter; otherwise the marking runs to completion, all of it above level 9999, or 10000 levels were marked. |
| Allocator.AllocatorTree.Free | memory/Allocator.c:480-502 | The whole of free: when it does nothing, moves or frees, and when it stops; who is freed, what survivors keep, each job of a freed allocator called once, memory released once and only with no job left, when the root check trips, and that freeing the root returns every byte. |
| Allocator.AllocatorTree.FinishFree | memory/Allocator.c:497-501 | Jobs are gathered, called once and released as that says, and the books still balance. |
| Allocator.AllocatorTree.MarshalOnFreeJobs | memory/Allocator.c:404-426 | The jobs of the whole subtree, each once, end up on the top's list and belong to it. |
| AllocatorBooks.ChildJobsNext | memory/Allocator.c:404-426 | In which order: each child's own jobs, then those below it, then the next child's. |
| Allocator.AllocatorTree.DoOnFreeJobs | memory/Allocator.c:428-446 | Every callback is called once in list order; exactly the asynchronous jobs remain. |
| Allocator.AllocatorTree.FreeAllocator | memory/Allocator.c:448-463 | Each allocator of the subtree is released once and its bytes return to the budget. |
| Allocator.AllocatorTree.BytesAllocated | memory/Allocator.c:72-79 | The sum over the natural subtree. |
| Allocator.AllocatorTree.OnFreeComplete | memory/Allocator.c:465-478 | Fails exactly for a job that is not listed; the last job to complete releases the whole subtree, any other releases nothing; the tree is in order afterwards unless that subtree was live. |
| Allocator.AllocatorTree.CancelOnFree | memory/Allocator.c:632-645 | Unlists the job; memory is stranded if and only if it was the last job of a waiting subtree. |
| Allocator.AllocatorTree.NewAllocation | memory/Allocator.c:154-184 | Charges allocator and budget alike for a block that holds the request, or fails exactly when the budget would not stay positive. |
| Allocator.RealSizeLeast | memory/Allocator.c:116-123 | The block behind the header is the least multiple of 8 bytes that holds the request, and grows with it. |
| Allocator.AllocatorTree.Realloc | memory/Allocator.c:524-593 | The same for growing, shrinking and freeing one allocation, with its exact failure condition. |
| Allocator.AllocatorTree.Child | memory/Allocator.c:606-630 | The new allocator is charged for itself and linked under its parent; all invariants are kept if and only if the parent is live, and otherwise the child shares the release of every subtree the parent is in. |
| Allocator.AllocatorTree.OnFree | memory/Allocator.c:736-766 | Appends a new job, paid for by its allocator; memory is stranded if and only if that allocator is already waiting. |
| Allocator.AllocatorTree.LateNeverCalled | memory/Allocator.c:428-446 | A job registered with a waiting allocator is never called. |
| Allocator.AllocatorTree.IsAncestorOf | memory/Allocator.c:648-669 | Decides ancestry along natural and adopted links (with the loop walking its list). |
| Allocator.AllocatorTree.WrittenIsAncestorOf | memory/Allocator.c:648-669 | The code to the letter, with the loop that stands still: yes, no, or never an answer. |
| Allocator.AllocatorTree.Adopt | memory/Allocator.c:697-734 | Each of its endings with its exact condition; an adoption adds exactly one parent link, charges exactly its structures, and keeps the graph acyclic and mirrored. |
| Allocator.AllocatorTree.Disown | memory/Allocator.c:671-695 | Removes one adoption edge, or frees the child that had moved under the disowning parent, with all that a free promises; each ending with its exact condition, also the failing assertion when there is no adoption. |
| Allocator.AllocatorTree.DisconnectAdopted | memory/Allocator.c:337-345 | Takes the edge off both lists; an assertion fails if and only if there is no such edge. |
| Allocator.AllocatorTree.constructor | memory/Allocator.c:768-812 | A new tree is a live root with its own structure accounted for and nothing to lose. |
| Allocator.FreedAreShallow | memory/Allocator.c:388-397 | A free that comes to its end took along nobody all of whose chains from the freed one hold 10000 allocators or more. |
| Allocator.RootBytes | memory/Allocator.c:489-494 | The check on freeing the root trips exactly when a detached subtree still holds bytes. |
| AllocatorAncestry.AdoptLinked | memory/Allocator.c:705-733 | An adoption that passes the ancestor test makes no cycle. |
| AllocatorAncestry.AncestorIsChain | memory/Allocator.c:648-669 | Ancestry is the existence of a chain of parent links, natural or adopted. |
| AllocatorAncestry.AsWrittenExact | memory/Allocator.c:648-669 | That code answers yes if and only if natural parents and the first adopters of topmost adopted allocators lead there, no if and only if the natural chain neither meets the asked one nor was adopted anywhere, and in all other cases it never returns. |
| AllocatorAncestry.AsWrittenRight | memory/Allocator.c:648-669 | When it answers, the answer is right. |
| AllocatorAncestry.TopmostMeaning | memory/Allocator.c:657-660 | What the topmost adopted allocator of a natural chain is. |
| AllocatorAncestry.AdoptReaches | memory/Allocator.c:697-733 | When adopting, as written, returns early, stops on its assertion, hangs, or comes to its list surgery: an exact condition for each. |
| AllocatorAncestry.DisownReaches | memory/Allocator.c:671-695 | The same for disowning. |
| AllocatorAncestry.AsWrittenLoopsExample | memory/Allocator.c:660-667 | A concrete tree of four allocators on which it never returns. |
| AllocatorSubtree.MarkedIsSubtree | memory/Allocator.c:448-455 | What free marked is exactly the natural subtree that the later walks visit. |
| AllocatorSubtree.SubtreesExtend | memory/Allocator.c:450-455 | Sibling subtrees are disjoint, so a walk visits each allocator once. |
| AllocatorBooks.AccountRelease | memory/Allocator.c:257 | Releasing a set of allocators keeps budget and holdings in balance. |
| AllocatorBooks.JobsAfterFree | memory/Allocator.c:404-446 | After a free no job is registered twice, run twice, or both. |
| AllocatorExamples.CancelledTooLate | memory/Allocator.c:632-645 | A history after which a subtree waits for nothing and is never released. |
| AllocatorExamples.RegisteredTooLate | memory/Allocator.c:736-766 | A history after which a subtree waits for a job that is never called. |
| AllocatorExamples.ChildTooLate | memory/Allocator.c:606-630 | A history after which a live allocator hangs in a subtree that waits to be released. |
| AllocatorExamples.LineTooDeep | memory/Allocator.c:390-396 | A line of 10001 allocators meets the sufficient condition for the stop. |
| AllocatorExamples.TooDeepTree | memory/Allocator.c:388-397 | A history that ends in the stop at 10000 levels. |
| AllocatorExamples.DeepEnoughTree | memory/Allocator.c:388-397 | One allocator fewer is freed. |
| AllocatorExamples.InNumbers | memory/Allocator.c:154-812 | The bytes charged and the order of the lists in a history of creating, registering, allocating, growing and adopting, in literal numbers. |
| AllocatorExamples.AdoptedThenFreed | memory/Allocator.c:357-362 | In any tree, a child that is adopted and then freed moves under that latest adopter. |
| Framing.ChunkingIrrelevant | interface/FramingIface.c:68-148 | However a stream is cut into chunks, the messages and the leftover are those of the whole stream. |
| Framing.OversizeForever | interface/FramingIface.c:73-76 | After an oversize header nothing more is emitted. |
| Framing.RoundTrip | interface/FramingIface.c:150-156 | Framed messages, in whatever chunks they arrive, come out in order with nothing left over. |
| Framing.NothingLost | interface/FramingIface.c:100-147 | The frames of the messages emitted, followed by the leftover, are the stream received. |
| Framing.LengthOrder | interface/FramingIface.c:110 | Headers compare, first byte first, as the lengths they announce: big-endian. |
| Framing.FrameHeader | interface/FramingIface.c:154 | The four bytes in front of a framed message add up, most significant first, to its length. |
| Framing.ParseCases | interface/FramingIface.c:110-147 | What a header and the bytes after it mean: too much, not all there, just a message, or a message and more. |
| Framing.InBytes | interface/FramingIface.c:68-148 | A literal frame comes out, and a literal header one byte too large in two chunks blocks. |
| Framing.FramingIface.SendMessage | interface/FramingIface.c:150-156 | Puts the header in front of the message. |
| Framing.FramingIface.MergeMessage | interface/FramingIface.c:47-66 | Joins the parts, latest first in the list, in the order in which they came. |
| Framing.FramingIface.ReceiveMessage | interface/FramingIface.c:68-148 | One chunk, with header, parts and the re-run of the merged buffer, emits and retains what the stream parser does. |
| BencDict.StringCompare | benc/String.c:64-79 | The loop computes the order, with the length difference as an int. |
| BencDict.CompareMeaning | benc/String.c:64-79 | NULL comes last; else the first differing byte decides, as a signed number, and a prefix comes first. |
| BencDict.SignedExample | benc/String.c:73 | Byte 0x80 comes before 0. |
| BencDict.ZeroMeansEqual | benc/String.c:64-87 | Zero agrees with equality if and only if neither string extends the other by a multiple of 2^32 bytes. |
| BencDict.ZeroForDifferentExample | benc/String.c:78 | A concrete pair of different strings that compare as equal. |
| BencDict.AntisymmetryExact | benc/String.c:64-79 | The order is antisymmetric for a pair if and only if neither string extends the other by an odd multiple of 2^31 bytes. |
| BencDict.AntisymmetryExample | benc/String.c:78 | Two strings each of which comes before the other. |
| BencDict.TransitivityExample | benc/String.c:78 | Three strings that come before one another in a circle. |
| BencDict.OrderExactly | benc/String.c:64-79 | On NULL and the strings of at most n bytes it is a strict total order if and only if n is below 2^31. |
| BencDict.CompareAntisymmetric | benc/String.c:64-87 | Antisymmetric, and zero exactly for equal strings, where a length difference that decides fits an int. |
| BencDict.CompareTransitive | benc/String.c:64-79 | Under the same condition on its three pairs, transitive. |
| BencDict.Canonical | benc/Dict.c:113-139 | Two sorted lists that stand for the same map are equal. |
| BencDict.BuiltIsMap | benc/Dict.c:113-219 | After any puts and removes of keys below 2^31 bytes the list is sorted and stands for what the last operation on each key left. |
| BencDict.HistoryIrrelevant | benc/Dict.c:113-219 | Histories that amount to the same map build the same list. |
| BencDict.PutOrderMatters | benc/Dict.c:113-139 | The order of two puts makes a difference if and only if one key extends the other by a multiple of 2^31 bytes. |
| BencDict.DuplicateExample | benc/Dict.c:113-139 | Such keys, and a dictionary that ends up with one of them twice. |
| BencDict.PutKeeps | benc/Dict.c:113-139 | On keys of comparable length a put keeps the list strictly sorted, updates the map at one key and returns the displaced value. |
| BencDict.RemoveKeeps | benc/Dict.c:204-219 | A remove keeps it sorted and removes one key. |
| BencDict.Dict.PutObject | benc/Dict.c:113-139 | The loop makes of any list what PutKeeps and PutOrderMatters speak of, and so keeps a sorted one sorted. |
| BencDict.Dict.Remove | benc/Dict.c:204-219 | The same for a remove, saying whether the key was there. |
| BencDict.Dict.LookupObject | benc/Dict.c:34-50 | Looks the key up in the map, NULL never being found. |
| BencDict.Dict.Size | benc/Dict.c:21-32 | Counts the entries. |
| ASynchronizer.Synchronizer.FromAIn | interface/ASynchronizer.c:88-97 | Queues at the end and arms the timer, also during a delivery. |
| ASynchronizer.Synchronizer.TimeoutTrigger | interface/ASynchronizer.c:47-79 | Delivers all that was queued, once and in order per direction; what is handed back in meanwhile is queued in order with the timer armed; the timer is torn down if and only if a dry run follows sixteen others, and how dry runs are counted. |
| ASynchronizer.Idle | interface/ASynchronizer.c:51-56 | After a message has been delivered, the seventeenth dry run tears the timer down. |
| ASynchronizer.Synchronizer.Reenter | interface/ASynchronizer.c:66-77 | Re-entered messages of any number of deliveries are kept in order. |
| Address.ClosestIsDistance | dht/Address.c:121-168 | The word-by-word comparison is the comparison of 128-bit XOR distances of the addresses rotated by 64 bits, and is zero only for equal addresses. |
| Address.ClosestIsOrder | dht/Address.c:133-168 | For each target it is antisymmetric and transitive, and nothing is closer than the target. |
| Address.FirstBitDecides | dht/Address.c:133-168 | Of two addresses the one that agrees with the target in the first bit in which they differ, counted from the middle of the sixteen bytes, is closer. |
| Address.WordsInMemory | dht/Address.h:42-50 | Where the four words lie in those bytes. |
| Address.Closest | dht/Address.c:142-168 | Fills the three cached addresses and answers by that order. |
| Address.NodeAddress.GetPrefix | dht/Address.c:39-49 | Computes the address from the key exactly when it is all zero. |

## Left out

- Key arithmetic, hashing and box construction: replaced by symbolic terms, so attacks on the primitives and forged packets are outside the network model. The network only replays, reorders and drops what the two sides sent.
- Password and user tables: a session knows which passwords it recognises and which are restricted to another address; adding, removing and listing users is not modelled.
- Byte layout, padding and lengths of messages: packets are values; a packet that is too short is the single value `Runt`, and the assertions on message padding, alignment and the non-empty payload of traffic are not modelled.
- CryptoNetwork.StepKeeps: a run ends where a packet bumps a counter across 2^32, because from there on the code's own assertions fail (`DecryptSound`).
- CryptoNetwork.CrossedHellosResolve: assumes that the sides recognise each other's passwords and do not time out during the exchange.
- ReplayProtector.RunLossExact: covers runs whose shifts fit a C int; beyond that the shift count is undefined in C and the count of losses is arbitrary.
- Allocator.AllocatorTree.Child: a tree with a live allocator inside a freeing subtree is out of order, and what later operations do to it is not followed further.
- Allocator.AllocatorTree.OnFree: on a live allocator or on the one that free was called on. Below that one, the list cells of a freeing allocator are shared with the waiting one's list, which the model keeps apart.
- Allocator.AllocatorTree.Free: onFree callbacks do not re-enter the allocator while they run, and what a callback answers is a parameter; one tree, so no adoption across two root allocators. The stop at 10000 levels has a necessary and a sufficient condition but no exact one on the links before the call: an allocator with two parents in reach is marked one level higher or lower depending on the order of siblings.
- Allocator.AllocatorTree.IsAncestorOf: walks the adopters to the end, where the loop in the source stands still.
- Allocator.RealSize: request sizes are unbounded numbers; the wrap of the 64-bit rounding for requests near 2^64 is not modelled, nor are canaries.
- Pointers: allocators, jobs and allocations are indices or list positions, so dangling pointers appear only as preconditions.
- The memory providers behind the allocator, and their failure to provide memory within the budget.
- Framing.FramingIface.ReceiveMessage: consumers do not feed the interface again while it emits; frame allocators and padding are not modelled.
- Dictionaries built on the stack with `Dict_CONST`, which need not be sorted.
- ASynchronizer.Synchronizer.TimeoutTrigger: the event loop that fires the timer, and message ownership, are not modelled.
- Textual addresses, serialisation, and the derivation of an address from a key, which is a parameter.
- Interface controller, administration, logging, configuration and I/O.
