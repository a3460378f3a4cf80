# Verification of the network-device tooling

A Dafny model of the protocol and state-machine cores of the repository, with proofs.
Devices, networks and stores are environments that may do anything their contract
allows; each theorem is about every schedule of such an environment. Where the code does
not meet its own documentation, the model keeps the code's behaviour and a lemma says
exactly when the documentation holds.

`dafny verify dfyconfig.toml` checks the whole project.

## What is modelled

**TFTP** (`TftpServer`, `TftpRetries`, `TftpClient`, `TftpFifo`, `TftpDatagram`). The transfer thread of
the read-only server: option negotiation, up to five OACKs, then blocks numbered modulo
65536 with up to six sends each. Its loops are methods (`SendFile`, `Handshake`,
`SendBlock`) proved against a step function, `Step`, that the two network models then use;
`TftpRetries` says in octets what they do with every run of replies.
The receiver is an RFC 1350 client whose counter rolls over in the same way. In
`TftpFifo` the two channels are queues that may lose and repeat packets at any place; in
`TftpDatagram` everything ever sent may be delivered at any later time, any number of
times. Over the queues a transfer of any length is safe. Over datagrams safety holds
exactly up to 65535 blocks after an OACK and 65536 without one; for every longer file
`Unsafe` builds a schedule in which the server reports success and the client has not
got the file.

**The MS510TXUP session** (`Ms510Session`). The client is a class with the fields that
the code mutates (session id, write token, cookie jar) plus the switch it talks to. The
switch has four slots; at any request it may expire sessions, restart its web server, let
somebody else in, or lose the request or the reply. What the client's slot accounting
relies on is the predicate `Kept` on the switch's script: the web server keeps its cookies,
a logout arrives, a grant that takes a slot is answered with a readable blob, an empty body
means a dead session, a `logout` reply frees the slot; sessions may expire, others may come
in, and any other request or reply may be lost. Under it the client owns at most one slot
after any calls, and none in per-call mode. On any other switch
a request is at most one *fault*, and the slots lost never outnumber the faults. The code does lose a slot when the web server restarts: a client with an old
cookie reads an empty body although its session, or the one it has just logged in, is live,
and drops it. `Strands` says exactly when a read does so on a switch that is well,
`GetAfterRestart` shows it for a per-call client, and `SlotsNeeded` when the read succeeds.
A write is not retried: a client that
holds a token for a dead session fails to write, and in session-reuse mode keeps failing
until a read notices (`WriteReady`, `SetAfterExpiry`).

**Certificate installation** (`CertInstall`). Two uploads and an HTTPS off-on edge, from
any state, half-finished earlier installations included. The code takes an ok answer to a
write for its effect; where the switch discards the write, `UploadCertificate` reports a
success that is none (`DiscardedOn`).

**Codecs** (`Obfuscation`, `Pkcs1`). The password obfuscation decodes by its own digits
exactly up to 31 characters and places every character exactly up to 40. PKCS#1 v1.5
padding (RFC 8017, sections 7.2.1 and 7.2.2) and the login blob.

**Admin-password rotation** (`RotateAdmin`, `Pr60xClient`, `Password`). The rotation is
composed with the device adapter and with the PR60X client's re-login and replay. The
contract of `Device` and `SecretStore`, that an error means no effect, is a condition on the inputs
(`Honest`), not an assumption: a *mishap* is an effect that the rotation reaches and whose
reply the environment loses, computed from the fates of the requests alone (`MishapOf`).
The documented table of outcomes holds, for a new password, exactly if there is none; in
particular always under the contract. Without it outcome 2, "provably still on the OLD
password", is wrong if the reply to the change is lost after the router applied it:
`RolledBackLocksOut` gives that environment from any state, and Vault then holds the old
password and the router the new one. The shuffle is proved to be a bijection from choices
to permutations.

**Port-forwarding rules** (`PortForwarding`). The router numbers rules by position; rows
carry an identity that neither side can see. `Read` finds its rule by natural key through
any history. A delete or an update by a remembered id is right exactly if no lower id has
been deleted since; so destroying two rules after one refresh, lower id first, always
misses the second one. This is for any history, updates included that give a rule the key
of another; only `KeyFollowsRule` needs histories without such an update.

**VLAN profile edits** (`JsonDiff`). The deep diff that guards an edit, the script's
verdict, and what the Go client sends. The script compares paths as dotted strings, so a
top-level field whose own name is `ipv4Settings.dhcpDnsAddr` could change unnoticed
(`DottedKeyHides`); nothing else could.

**Parsers** (`Text`, `ProcVlan`, `ProcVlanFile`, `SwitchShell`, `LinkdownFile`, `Telnet`).
`/proc/vlan` with its port lists, the section splitter, the link-down ring, and the telnet
option filter (RFC 854). The two file formats are written down as printers, and parsing
what they print gives back what was printed. An escaped IAC that does not end its read is
taken for an option command and lost with the byte after it (`EscapeSwallowed`).

## Model

| member | source | states |
|---|---|---|
| TftpServer.Negotiate | scripts/tftp_serve.py:53-64 | a requested size within 8..8192 is taken as it is, a larger one gives 8192, a smaller one 8, none 512; and an OACK is sent exactly if an option was asked for |
| TftpServer.ChunkTiles | scripts/tftp_serve.py:81-109 | block b carries the bytes right after blocks 1..b-1; all blocks are full but the last, which is strictly shorter, and the last is number size/blksize + 1 |
| TftpServer.StepKeepsSound | scripts/tftp_serve.py:64-109 | every receive keeps the byte count equal to the offset of the acknowledged blocks, the block within the file, and strictly uses up the send budget |
| TftpServer.Progress | scripts/tftp_serve.py:64-109 | whatever the client answers, the thread is sound after k receives and, if still running, has spent at most 5 sends on the OACK and 6 on each block |
| TftpServer.Completion | scripts/tftp_serve.py:104-111 | "transfer complete" means size/blksize + 1 blocks acknowledged and `sent` equal to the file size |
| TftpServer.Stops | scripts/tftp_serve.py:67-103 | no thread is still running after 5 OACKs (if negotiated) plus 6 sends of each block |
| TftpServer.Handshake | scripts/tftp_serve.py:64-79 | the OACK loop takes exactly the model's steps and ends either stopped or at the start of block 1 |
| TftpServer.SendBlock | scripts/tftp_serve.py:85-109 | the retry loop of one block takes exactly the model's steps, and goes on to the next block only after a full block and its own ACK |
| TftpServer.SendFile | scripts/tftp_serve.py:42-111 | the whole thread: each packet sent is the one of the block reached after that many replies, it stops within the send bound, and completion means the file was sent |
| TftpRetries.PacketIs | scripts/tftp_serve.py:64-91 | the packet at block 0 is the OACK, at block b the number b modulo 65536 and the b-th piece of the file |
| TftpRetries.Resends | scripts/tftp_serve.py:67-103 | j replies that do not concern a packet, fewer than it is sent at most, leave the server on its send number j + 1 of the same packet |
| TftpRetries.GivesUpExactly | scripts/tftp_serve.py:67-103 | the server gives up if and only if the last five replies to the OACK, or the last six to a block, were silence or datagrams that did not concern it |
| TftpRetries.Persists | scripts/tftp_serve.py:67-103 | of the transfer thread: each block is sent again after every silence or stray reply, up to six times in all, the OACK up to five; its ACK within them moves the thread to the next block |
| TftpRetries.Ends | scripts/tftp_serve.py:64-111 | each way to end, exactly: five fruitless OACKs or six fruitless sends of a block; an ERROR in answer to a block, at once; a datagram too short to unpack; the ACK of the last block |
| TftpClient.TakesExpected | scripts/tftp_serve.py:84-109 | the next packet of the file takes the client from having c-1 blocks to having c, and is acknowledged |
| TftpClient.IgnoresPrevious | scripts/tftp_serve.py:87-95 | a repeat of the packet before changes nothing at the client, at any block number, rollover included |
| TftpFifo.ClientKeeps | scripts/tftp_serve.py:84-109 | a client read keeps the invariant: in flight there are only the current and the previous packet, old before new, and the client holds a whole number of blocks |
| TftpFifo.MovesOnlyOnOwnAck | scripts/tftp_serve.py:93-109 | among the messages that can be in flight, only the ACK of the true current block moves the server on; equality modulo 65536 is equality |
| TftpFifo.ServerKeeps | scripts/tftp_serve.py:64-109 | a server read keeps the invariant |
| TftpFifo.ChannelKeeps | scripts/tftp_serve.py:67-103 | losing or repeating any packet in flight, in either direction, keeps the invariant |
| TftpFifo.Reaches | scripts/tftp_serve.py:64-111 | the invariant holds after every schedule |
| TftpFifo.Safe | scripts/tftp_serve.py:81-111 | for every file, of any length, and every schedule: the client's bytes are a prefix of the file, all of it once the client is done, and the client is done when the server reports completion |
| TftpDatagram.ClientTakes | scripts/tftp_serve.py:84-109 | below the block limit, any packet ever sent either is the one the client waits for or leaves it unchanged |
| TftpDatagram.ServerTakes | scripts/tftp_serve.py:93-109 | below the limit, any message ever sent moves the server only to blocks the client has acknowledged |
| TftpDatagram.Safe | scripts/tftp_serve.py:86-111 | with reordering and unlimited stale delivery, every schedule is safe for files up to the limit |
| TftpDatagram.Coast | scripts/tftp_serve.py:86-109 | a server that can be shown stale ACKs of every residue completes without the client receiving anything more |
| TftpDatagram.Unsafe | scripts/tftp_serve.py:86-111 | for every file over the limit there is a schedule in which the server reports completion and the client is not done |
| TftpDatagram.SafeExactly | scripts/tftp_serve.py:86-111 | all schedules are safe if and only if the file has at most 65535 blocks after an OACK, 65536 without |
| Ms510Session.LoginStatus | internal/ms510txup/client.go:334-352 | the client gets a session exactly if the request arrives, the switch grants with a slot free, and the reply comes back readable; a slot is taken and lost exactly if one of the last two fails |
| Ms510Session.AwaitGrant | internal/ms510txup/client.go:332-355 | it asks again exactly as long as the switch says pending, at most fifteen times; every slot opened and not handed over is a fault; on a well switch a session comes exactly if a slot is free |
| Ms510Session.Handshake | internal/ms510txup/client.go:312-356 | the password goes out only after the page has come, the polls only after the password is accepted, and a whole login keeps that accounting |
| Ms510Session.Client.Login | internal/ms510txup/client.go:312-356 | a login clears the write token, and slots lost during it are paid for by faults |
| Ms510Session.Client.Ensure | internal/ms510txup/client.go:358-365 | a held session is used as it is; otherwise at most one login |
| Ms510Session.Client.DropSession | internal/ms510txup/client.go:367-386 | session, token and cookie are forgotten; a slot is stranded only if the session was still live |
| Ms510Session.Write | internal/ms510txup/client.go:497-516 | one write on any switch: success exactly if it arrives with a live session and a good cookie, is answered, and is applied or discarded; a logout reply exactly in the two logout cases; the configuration moves exactly if it is applied |
| Ms510Session.Client.ReadTwice | internal/ms510txup/client.go:426-445 | the retry is made exactly after an empty body, with the only login; otherwise one request, whose answer is returned exactly if the session and the cookie are good and the switch answers |
| Ms510Session.Client.GetLocked | internal/ms510txup/client.go:422-457 | at most two logins and two requests, no write; on any switch a content is the answer to this command at the current configuration, and its token is kept; on a well switch current data exactly if the free slots suffice |
| Ms510Session.Client.Get | internal/ms510txup/client.go:415-420 | the same for the public read, from every reachable client state; in per-call mode no session is held afterwards, success or not; on a well switch it loses one slot exactly if the cookie is stale and the session used first is live, otherwise none |
| Ms510Session.Client.GetAfterRestart | internal/ms510txup/client.go:367-386 | a restart of the web server between two calls makes the next read of a client with a cookie and no session lose exactly one slot |
| Ms510Session.Client.RefreshXsrf | internal/ms510txup/client.go:459-471 | success means a token, and it was handed out to the session held; on a well switch it succeeds, and loses a slot, exactly as a read does |
| Ms510Session.Client.Prepare | internal/ms510txup/client.go:481-488 | a session and a token held are used unchecked; otherwise a read fetches the token, and then the session is alive |
| Ms510Session.Client.Post | internal/ms510txup/client.go:490-517 | one write goes out with the session held and its token; on any switch it reports success if and only if the request arrives, is let in, is answered, and the answer is ok without a logout; an answered logout forgets the session |
| Ms510Session.Client.Set | internal/ms510txup/client.go:477-517 | on any switch a reported success means that some request of the call was answered ok without a logout; at most one write per call, and every write ever sent carries a token that the switch handed out to the session sent with it; on a well switch the write is applied exactly if no token is held and the slots suffice, or one is held and the session is alive; a slot is lost exactly if a token has to be fetched and that read loses one; a client that fails with a token held stays unable to write in session-reuse mode |
| Ms510Session.Client.SetAfterExpiry | internal/ms510txup/client.go:477-517 | a session that expires between two calls of a session-reuse client with a token makes the next write fail on a well switch and leaves the client unable to write |
| Ms510Session.Client.LogoutLocked | internal/ms510txup/client.go:854-861 | the session is forgotten, and its slot is stranded only if the request did not arrive |
| Ms510Session.Client.Run | internal/ms510txup/client.go:118-125 | over any sequence of calls, on any switch that keeps the assumptions, the client owns at most one slot, and none after a call in per-call mode; on any switch at all the slots lost never outnumber the faults |
| CertInstall.AwaitUpload | internal/ms510txup/upload.go:206-228 | success exactly if one of thirty polls says success and all before it say nothing yet |
| CertInstall.SpoolFiles | internal/ms510txup/upload.go:117-142 | success exactly if both uploads are answered and accepted; exactly the files sent and stored are replaced, one at a time, and neither the HTTPS flag nor the served pair moves |
| CertInstall.UploadCertificate | internal/ms510txup/upload.go:78-112 | success exactly if both files are accepted, the row is read and shows a certificate, and both writes are answered ok; the whole final state from the fates of the effects, an unheard write doing its work; every state on the way, one effect at a time, serves the old pair or the wanted one; a failure before the edge leaves the listener alone; after success the wanted pair is served exactly unless a write answered ok was discarded where it mattered |
| CertInstall.DiscardedOn | internal/ms510txup/upload.go:95-112 | from any state with a certificate and another pair served there is a success that leaves HTTPS off and the wanted pair unserved |
| CertInstall.Rerun | internal/ms510txup/upload.go:78-112 | from any partial state, an installation whose uploads are accepted and whose writes are applied succeeds and serves the wanted pair |
| Obfuscation.Encode | internal/ms510txup/client.go:155-177 | the loop puts at every position what the closed form says: every seventh position a password character from the end, two digits, padding elsewhere |
| Obfuscation.Layout | internal/ms510txup/client.go:155-177 | the output has 320-n characters, p[n-k] is at 0-based position 7k-1 if that exists, the tens digit of n at 122 and the ones digit at 288, whatever the padding |
| Obfuscation.PaddingElsewhere | internal/ms510txup/client.go:155-177 | every other position holds the padding |
| Obfuscation.AllPlacedExactly | scripts/ms510txup_login.py:60-75 | the output tells the password apart from every other of its length if and only if it has at most 40 characters; from 41 on the first character is nowhere in it |
| Obfuscation.PicksBack | internal/ms510txup/client.go:155-177 | a receiver that knows n reads back every password of at most 40 characters |
| Obfuscation.DecodesExactly | scripts/ms510txup_login.py:60-75 | decoding by the digits gives the password back if and only if n <= 31 |
| Pkcs1.Pad | scripts/ms510txup_login.py:102-113 | refused exactly if the message is longer than k-11; otherwise 00 02, the non-zero octets of the random source in order, 00, the message, k octets in all |
| Pkcs1.UnpadExactly | scripts/ms510txup_login.py:94-113 | section 7.2.2 unpadding returns m exactly for the octet strings framed around m with at least eight non-zero octets |
| Pkcs1.BelowModulus | scripts/ms510txup_login.py:102-114 | with k the octet length of the modulus, every encoded message is below the modulus as a number |
| Pkcs1.Survives | scripts/ms510txup_login.py:113-115 | for any padding of non-zero octets: encrypting, sending k octets, decrypting and unpadding gives the session id back, for every pair of inverse maps below the modulus |
| Pkcs1.Encrypt | scripts/ms510txup_login.py:94-115 | the whole function, from the random source on: an error exactly if the message is longer than k-11, otherwise k octets from which the holder of the inverse gets the message back |
| Pkcs1.KeyLengthExactly | scripts/ms510txup_login.py:102-102 | the key length is k if and only if the modulus takes k octets, no fewer |
| Pkcs1.ParseSessExactly | internal/ms510txup/client.go:289-309 | a blob of 32, 5 and more characters with any NUL padding parses to a session id and two numbers if and only if those are its first 32 characters and the numbers that the next five and the rest denote in base sixteen |
| Pkcs1.ParseSessShort | internal/ms510txup/client.go:296-298 | a blob of fewer than 38 characters before its padding is refused |
| Pkcs1.ParseSessBack | scripts/ms510txup_login.py:118-124 | for any two numbers: the blob with the first printed in five hexadecimal digits and the second in as many as it has parses to the session id and those numbers |
| Pkcs1.HexNumberExactly | internal/ms510txup/client.go:300-307 | a text reads as x if and only if, after an optional sign, its digits, small or capital, are those of x in base sixteen, leading zeros allowed |
| Pkcs1.ToHexBack | scripts/ms510txup_login.py:118-124 | reading undoes printing in hexadecimal, for every number, in both cases of letter and after any number of zeros |
| RotateAdmin.CloneWith | cmd/rotate-admin/rotate.go:169-176 | the copying loop gives the old map with one field set, all others kept |
| RotateAdmin.Rotate | cmd/rotate-admin/rotate.go:100-164 | the crash points one by one, the outcome and what it leaves behind, from the fates of the effects; at every crash point only the one field and the password have moved, and a router on the new password has it in Vault, exactly unless the reply to the change is lost and the rollback stored; outcome 0 if and only if the change and the check after it are both served; a secret without the field, or with an empty one, changes nothing; the documented table of outcomes holds, for a new password, if and only if no effect that is reached loses its reply; where Vault and router answer, outcome 0 exactly if Vault holds the current password |
| RotateAdmin.AgreesWhere | cmd/rotate-admin/rotate.go:85-95 | at every such point of a rotation from an agreeing state Vault and router agree exactly if both have moved or neither has; so not between the first write and the change |
| RotateAdmin.ChangeDevice | cmd/rotate-admin/rotate.go:137-163 | from the first write on: the change reached or not by its fate, and after it the rollback or the check |
| RotateAdmin.HonestIsClean | cmd/rotate-admin/rotate.go:130-149 | under the stated contract, an error means no effect, no rotation meets a mishap |
| RotateAdmin.RolledBackLocksOut | cmd/rotate-admin/rotate.go:67-70 | from any state in which both sides agree, losing the one reply to the change ends in outcome 2 with Vault on the old password and the router on the new one |
| RotateAdmin.RotateMany | cmd/rotate-admin/rotate.go:85-164 | any number of rotations: where device and Vault keep the contract, or at least no rotation meets a mishap, Vault and router agree unless some rotation ended diverged, and with fresh passwords only then; all other fields survive; at most one change each |
| Pr60xClient.PostSteps | internal/pr60x/client.go:129-180 | one request: an RPC error means nothing was executed, a reply means it was, a lost reply may mean either |
| Pr60xClient.Authenticate | internal/pr60x/client.go:182-202 | logging in changes no password and succeeds only with the current one |
| Pr60xClient.Call | internal/pr60x/client.go:222-263 | with re-login and replay, a password change is executed at most once, and exactly once when the call succeeds; if no reply is lost, a failure changes nothing; with a router that answers, a stale token is replaced and the call succeeds exactly if the token or the password is good |
| Pr60xClient.SetPassword | cmd/rotate-admin/device_pr60x.go:47-56 | the adapter: at most one change; success exactly if both passwords are given, the old one is right and the request, at the first attempt or after a 401 at the second, is served; an error with the change made exactly if its reply is lost instead |
| Pr60xClient.Verify | cmd/rotate-admin/device_pr60x.go:58-68 | success if and only if the router is on the candidate password and the request, at the first attempt or after a 401 at the second, is served; nothing is changed |
| Password.Permutes | cmd/rotate-admin/password.go:85-95 | the shuffle loses, repeats and invents nothing |
| Password.Injective | cmd/rotate-admin/password.go:85-95 | on distinct elements two different choice sequences give different orders |
| Password.ExactlyOneChoice | cmd/rotate-admin/password.go:85-95 | the orders produced are exactly the permutations, each by exactly one choice sequence with js[i] in 0..i |
| Password.Shuffle | cmd/rotate-admin/password.go:85-95 | the in-place loop is that shuffle |
| Password.GeneratePassword | cmd/rotate-admin/password.go:37-73 | the requested length, 20 if below 8; only letters, digits and `@#$%`, at least one small letter, capital, digit and symbol; and the shuffle of exactly the characters drawn |
| Password.SourceExactly | cmd/rotate-admin/password.go:28-66 | what each character is drawn from: a class each for the first four, all four classes for the rest |
| Password.SourceDistinct | cmd/rotate-admin/password.go:28-66 | no character is twice in what it is drawn from |
| PortForwarding.NextRuleId | internal/pr60x/client.go:494-506 | an id above every id in use, by one |
| PortForwarding.Create | internal/provider/resource_port_forwarding_rule.go:144-204 | refused exactly if a profile is missing or the key is taken; otherwise one new row, remembered as it is, the very one that the histories add; ids, identities and, if they were, keys stay unique |
| PortForwarding.Read | internal/provider/resource_port_forwarding_rule.go:219-268 | for any table and whatever id is remembered: with an external service remembered, a row with the remembered key, dropped exactly if there is none, and the row with the remembered id if that has the key; by id alone otherwise |
| PortForwarding.ExecSound | internal/provider/resource_port_forwarding_rule.go:137-284 | ids and identities stay unique over any history of creates, updates and deletes |
| PortForwarding.ExecKeys | internal/provider/resource_port_forwarding_rule.go:137-284 | natural keys stay unique over any history in which no update is to a key that another rule holds |
| PortForwarding.EditKeys | internal/provider/resource_port_forwarding_rule.go:270-284 | an update of a present rule keeps natural keys unique if and only if no other rule has the key |
| PortForwarding.KeyFollowsRule | internal/provider/resource_port_forwarding_rule.go:228-263 | after any such history the row read by key is the tracked rule if and only if that rule is still there under its key |
| PortForwarding.NeverAnother | internal/provider/resource_port_forwarding_rule.go:228-263 | over any history at all: as long as no other rule is given the key, Read finds the tracked rule or nothing |
| PortForwarding.ReadLater | internal/provider/resource_port_forwarding_rule.go:219-268 | a refresh after any history in which no other rule is given the key finds the tracked rule, wherever it is by now, or drops the resource, exactly if that rule is gone or has another key |
| PortForwarding.IdDrifts | internal/provider/resource_port_forwarding_rule.go:219-226 | a surviving rule's id has moved down by exactly the number of lower ids deleted |
| PortForwarding.RemoveGone | internal/provider/resource_port_forwarding_rule.go:286-295 | a delete removes one rule and leaves every other rule's key and settings |
| PortForwarding.StaleDelete | internal/provider/resource_port_forwarding_rule.go:286-295 | a delete by remembered id removes the tracked rule and only it if and only if no lower id was deleted since; otherwise that rule survives and any rule hit is another |
| PortForwarding.StaleUpdate | internal/provider/resource_port_forwarding_rule.go:270-284 | an update by remembered id rewrites the tracked row only, or, after a lower delete, the row of the other rule that has the id now, or none |
| PortForwarding.DestroyTwo | internal/provider/resource_port_forwarding_rule.go:286-295 | two deletes after one refresh: lower id first, the second rule survives; higher id first, both go and nothing else |
| JsonDiff.EmptyExactly | scripts/set_dhcp_dns.py:45-54 | the diff is empty if and only if the values agree up to a missing key being a null one in nested objects |
| JsonDiff.ReportsTrue | scripts/set_dhcp_dns.py:45-54 | every reported change has the old value at its path before and the new one after, and they differ |
| JsonDiff.NoOverlap | scripts/set_dhcp_dns.py:45-54 | no reported path is equal to or a prefix of another |
| JsonDiff.Complete | scripts/set_dhcp_dns.py:45-54 | applying the reported new values to the old value gives the new one, up to that agreement |
| JsonDiff.OnlyThere | scripts/set_dhcp_dns.py:110-133 | an edit of one path is reported at that path or not at all |
| JsonDiff.AcceptedExactly | scripts/set_dhcp_dns.py:126-145 | the verdict on key paths: accepted if and only if the profile afterwards is the one before with the one list replaced, up to missing keys |
| JsonDiff.ScriptAcceptsExactly | scripts/set_dhcp_dns.py:45-54 | the verdict on dotted strings, as the script computes it: it is that edit if and only if the script accepts and the top-level field named `ipv4Settings.dhcpDnsAddr` has not changed |
| JsonDiff.DottedKeyHides | scripts/set_dhcp_dns.py:126-139 | a change of that field goes unnoticed |
| JsonDiff.EditTouches | internal/pr60x/client.go:686-711 | what the Go client sends differs from what it read only in the list, the type when the list is not empty, and the action |
| JsonDiff.EditSends | internal/pr60x/client.go:686-711 | what the Go client sends: the servers in their order as `dhcpDnsAddr`, the type `custom` if there are any and as read otherwise, the action `edit`, every other key as read; nothing exactly without an `ipv4Settings` object |
| ProcVlan.ExpandPortList | cmd/ms510txup-exporter/ssh.go:720-752 | the loops over tokens and ranges compute the recursive expansion |
| ProcVlan.CompressKeeps | cmd/ms510txup-exporter/ssh.go:716-720 | range compression keeps the ports and their order |
| ProcVlan.ListOfRuns | cmd/ms510txup-exporter/ssh.go:720-752 | a padded list of prefixed runs expands to exactly the ports of the runs |
| ProcVlan.ExpandCompress | cmd/ms510txup-exporter/ssh.go:716-752 | expansion undoes range compression, for every list of ports, prefix and padding |
| ProcVlan.TokenNumber | cmd/ms510txup-exporter/ssh.go:720-752 | a token of any name and padding without a dash is the port with that text if it is a number within 64 bits, otherwise none |
| ProcVlan.TokenRange | cmd/ms510txup-exporter/ssh.go:735-744 | a token with a dash is every port from the first number to the second, none if they are out of order |
| ProcVlan.TokenBadRange | cmd/ms510txup-exporter/ssh.go:735-740 | a token with a dash and anything but two numbers is no port |
| ProcVlan.TokenJunk | cmd/ms510txup-exporter/ssh.go:724-750 | a token without a digit is no port |
| Text.AtoiExactly | cmd/ms510txup-exporter/ssh.go:736-748 | a text reads as x if and only if, after an optional sign, its digits are those of x in base ten, leading zeros allowed, and x fits 64 bits |
| Text.TrimAround | cmd/ms510txup-exporter/ssh.go:671-724 | trimming takes away all white space around a text and nothing else |
| Text.SplitJoin | cmd/ms510txup-exporter/ssh.go:670-723 | splitting undoes joining |
| ProcVlanFile.Poller.ParseVLAN | cmd/ms510txup-exporter/ssh.go:662-714 | no output leaves the gauges alone, any other replaces both by what the lines say |
| ProcVlanFile.VlanLineBack | cmd/ms510txup-exporter/ssh.go:692-712 | a membership row is read as its VLAN, untagged ports before tagged ones |
| ProcVlanFile.PvidLineBack | cmd/ms510txup-exporter/ssh.go:679-690 | a PVID row is read as its port number and PVID |
| ProcVlanFile.HeaderSkipped | cmd/ms510txup-exporter/ssh.go:697-705 | the header row is skipped without a special case |
| ProcVlanFile.NoRow | cmd/ms510txup-exporter/ssh.go:671-697 | blank lines and lines without a colon are skipped |
| ProcVlanFile.MarkAnyhow | cmd/ms510txup-exporter/ssh.go:675-678 | any line that starts with PVID starts the second block |
| ProcVlanFile.NotAPvid | cmd/ms510txup-exporter/ssh.go:679-690 | a row of the second block whose PVID is not a number is skipped |
| ProcVlanFile.NoBar | cmd/ms510txup-exporter/ssh.go:692-712 | a membership row without a bar has untagged ports only, written as 1 |
| ProcVlanFile.RoundTrip | cmd/ms510txup-exporter/ssh.go:645-714 | parsing the rendered file of any configuration gives exactly that configuration: each member port as 1 (untagged) or 2 (tagged), each PVID, nothing else |
| SwitchShell.SplitSections | cmd/ms510txup-exporter/ssh.go:307-329 | the loop is the fold of one line at a time |
| SwitchShell.SectionsBack | cmd/ms510txup-exporter/ssh.go:307-329 | for distinct names and lines that do not start with @@, and whatever lines come before the first section, splitting the printed sections gives each section's lines, the trailing empty piece in the last one |
| SwitchShell.ReturnsDropped | cmd/ms510txup-exporter/ssh.go:318-326 | carriage returns at the end of a line make no difference |
| LinkdownFile.EntryBack | cmd/ms510txup-exporter/ssh.go:499-522 | a printed slot is read as its reason and time exactly if its time is not zero, is a number, and the reason is not "unknown" in any case |
| LinkdownFile.PlainEntry | cmd/ms510txup-exporter/ssh.go:499-522 | a reason without a code in parentheses is taken as it is, under the same conditions |
| LinkdownFile.NoEntry | cmd/ms510txup-exporter/ssh.go:499-522 | a timestamp alone, and a code without a reason, are no entries |
| SwitchShell.LowerExactly | cmd/ms510txup-exporter/ssh.go:518-520 | the comparison with "unknown" takes each capital for its small letter and every other character as it is |
| SwitchShell.FieldsFirst | cmd/ms510txup-exporter/ssh.go:500-500 | the first word of a text is what stands between white space, and the rest follows |
| SwitchShell.InsideExactly | cmd/ms510txup-exporter/ssh.go:455-455 | the header test finds a text exactly if it stands somewhere in the line |
| LinkdownFile.HeaderLine | cmd/ms510txup-exporter/ssh.go:455-462 | a printed port header is read as that port number |
| SwitchShell.Poller.ParseLinkdown | cmd/ms510txup-exporter/ssh.go:427-494 | the single pass shows what the definition block by block shows; no output changes nothing |
| SwitchShell.ShowsEachPort | cmd/ms510txup-exporter/ssh.go:427-494 | for blocks of different ports, each port shows the number of real entries of its own reason log and the reason and time of the first, `none` and 0 if there is none, and nothing else is shown |
| LinkdownFile.RoundTrip | cmd/ms510txup-exporter/ssh.go:411-522 | the same from the text: the printed file of any ports, temporary reasons and empty slots included, shows for each port the count of its recorded reasons and the newest one, and nothing else |
| Telnet.Negotiate | cmd/xs508tm-exporter/telnet.go:256-281 | the loop computes the recursive filter, text and answers |
| Telnet.FilterItems | cmd/xs508tm-exporter/telnet.go:256-281 | in front of any bytes, whole items filter to exactly their data and one WONT per DO and one DONT per WILL, in order |
| Telnet.Answers | cmd/xs508tm-exporter/telnet.go:256-281 | in octets: 255 253 x is answered by 255 252 x, 255 251 x by 255 254 x, any other command by nothing, and each is taken out |
| Telnet.Passes | cmd/xs508tm-exporter/telnet.go:256-281 | any other octet is data, and so is a command cut short by the end of its read |
| Telnet.SplitAnywhere | cmd/xs508tm-exporter/telnet.go:233-281 | however the stream is split into reads between items, text and answers are those of the whole stream |
| Telnet.RepliesAreFinal | cmd/xs508tm-exporter/telnet.go:256-281 | answers never provoke answers |
| Telnet.EscapeSwallowed | cmd/xs508tm-exporter/telnet.go:256-281 | an escaped IAC is kept at the end of a read; elsewhere it is lost together with the byte after it |
| Telnet.ReadUntil | cmd/xs508tm-exporter/telnet.go:233-251 | it stops at the first read after which the text contains a sentinel, with the text up to there and every request up to there answered, and with an error only if there is none |
| Telnet.ContainsExactly | cmd/xs508tm-exporter/telnet.go:240-250 | the text contains a sentinel exactly if one stands somewhere in it |

## Left out

- TFTP sockets, peer addresses and transfer ids, and a repeated read request, which starts a second thread.
- TFTP option text: `int()` of a malformed block size raises in the thread before anything is sent; the model starts from the integer.
- Ms510Session: HTTP, request signing, RSA, JSON and clocks; replies are what the client distinguishes. Calls are one at a time, as the mutex makes them.
- Ms510Session.Client.Set: without a well switch, a reported success does not mean that the write took effect; the firmware may discard it, and the code says so.
- An HTTP 404 does not drop a session; an upload after a re-login during the upload carries an empty token. Neither is modelled further.
- The other fields of the HTTPS row, and the session under a certificate upload.
- CertInstall.UploadCertificate: assumes that the upload status reports on the last POST.
- Obfuscation.Layout: the tens digit is given below 100 characters; from there the Go code writes one byte and the Python code a longer string.
- Pkcs1.ParseSessExactly: base64 and the limits of the Go number types.
- Pr60xClient.PostSteps: a 401 means not executed, and a wrong password is answered with another code; both are taken from the router.
- RotateAdmin: secret versions, the Vault protocol, and the command's own exit handling.
- Random sources: the choices are arguments. That crypto/rand is uniform is not stated.
- PortForwarding.Create: listing and adding succeed; id allocation and the add are two calls, and another caller in between is left out.
- JsonDiff: keys are visited in any order, not only sorted; scalars are compared up to Python's equality.
- ProcVlan.ExpandPortList: a range up to the largest 64-bit integer, whose loop counter wraps in Go.
- Unicode white space in the parsers, and the 64 KB line limit of the scanner in `parseLinkdown`.
- SwitchShell.Poller.ParseLinkdown: the number parser is a parameter, and timestamps are not rounded.
- Telnet items split across two reads, and a connection's timing.
- Not covered: the other device clients, scraping and speed parsing, Terraform schemas, singleton settings, the exporters' other parsers.
