# Verification models of the TFTP pair and the mail server

Dafny 4.11 models of two parts of the repository, with proofs about every run of them.

**TFTP** (`protocols/ftp/tftp_client`, `protocols/ftp/tftp_server`). The sending and receiving loops of client and
server run against each other over a network that loses, duplicates, delays and reorders datagrams, while strangers
send what they like and waits time out. Three layers:

- `loops.dfy` and `clients.dfy` hold the loops as the program runs them: 16-bit block numbers, one data buffer whose
  size is also the next read size, a stream with an end-of-file flag, a watchdog object, the target file. The
  environment of a loop is a sequence of waits (how long, how it ended, whether the next send works); every prefix of
  every behaviour is covered.
- `machine.dfy` holds the same loops as step functions over an unbounded chunk count. The methods of the first layer
  are proved to send the same datagrams and return the same result, wait by wait.
- `network.dfy` composes a sender and a receiver. Every datagram ever sent to a side may arrive at any later wait, any
  number of times. Time is shared: `Pass` lets milliseconds go by for both sides. `clients.dfy` proves that each side
  of such a run does exactly what its loop does with its own waits.

`packet.dfy` is the codec, `chunks.dfy` the cutting of a file into payloads; `delivery.dfy`, `progress.dfy`,
`wraparound.dfy` and `oneway.dfy` hold the results about whole transfers, `runs.dfy`, `watch.dfy`, `outcomes.dfy`,
`strays.dfy` and `agreement.dfy` those about one side against an arbitrary peer.

**Mail server** (`protocols/mail/smtp_server`). Sessions are objects with one method for what runs between two
suspensions (`smtp.dfy`, `pop3.dfy`, `imap.dfy`), over one shared storage (`maildrops.dfy`); each method is proved to
be a step function of session and storage. `mailserver.dfy` interleaves any number of sessions, with an exception
possible at every suspension, and keeps the invariant. `process.dfy` runs the objects themselves: over any sequence of
connections, resumptions and exceptions they and the storage are where that model says. `pop3dialogue.dfy` and
`imapdialogue.dfy` say what a session is from its lines and the storage they find, and `dialogues.dfy` that every
session of every run is just that. `guarantees.dfy` draws the results on locks, endings and transactions,
`conservation.dfy` those on what is stored, `listings.dfy` those on POP3 LIST over whole runs.

## Findings

- In a read the sender's success means that every byte is written, for files of any length. In a write the wrapped
  sender takes old acknowledgements for new ones. The exact limits are: every byte is written when the sender succeeds
  if and only if the file has at most 65535 * 512 = 33,553,920 bytes; the receiver has accepted the short block that
  ends the file if and only if it has 1 to 33,553,919. At 33,553,920 bytes the last block is empty, so all bytes are
  there although the receiver never learns that it is done. An empty file has no block at all.
- What makes a longer write succeed too early is old ACKs that reach the sender again behind newer ones. In every run
  in which ACK numbers never go back, success is sound for files of any length, and a file of more than 33,553,919
  bytes does not succeed at all (`Wraparound.OrderedAcksAreSound`). With such repetitions and nothing else amiss,
  every write of more than 33,553,920 bytes has a run that succeeds too early (`Wraparound.OverlongWriteSucceedsEarly`).
- A receiver's success does not imply the sender's: when the last ACK is lost, the receiver succeeds and the sender
  times out. This can happen for exactly the files that can be transferred (`OneWay.ReceiverCanSucceedAlone`).
- Both sides can succeed if and only if the file has 1 to 33,553,919 bytes. The sender of an empty file reports success
  at once and sends nothing, unlike section 6 of RFC 1350, and no receiver ever succeeds with one
  (`Delivery.EmptyFileNeverArrives`).
- Once a sender's block number has wrapped to 0 it also accepts an ACK too short to hold a block number
  (`Machine.AcceptedAcks`).
- The two receiving loops differ: after a short block and then a full one, the next silence ends the server's loop with
  success and not the client's. They agree on a sequence of events if and only if it has no such silence.
- The octet count of POP3 LIST is an `int` accumulation; it is the true total exactly below 2^31. One delivered line of
  2^31 characters makes the announced count negative (`Listings.OctetsCanBeNegative`).
- POP3 LIST lists exactly one message more than it announced for each mail delivered to its user between the writing of
  the header and the writing of the end. The announced number is right if and only if there was none.
  There is no bound: a LIST that announced one message can list n, for every n, and goes on as long as a mail arrives
  before each line. Once there are no more, it ends within the messages that are left (`Listings.ListEndsInTime`).

## Model

| member | source | states |
|---|---|---|
| Packet.WireFormat | protocols/ftp/tftp_client/src/utils.h:74-116 | every packet byte by byte, with the opcodes 1 to 5, high bytes first and the mode "octet" |
| Packet.DataRoundTrip | protocols/ftp/tftp_server/src/utils.h:97-151 | DATA built by either side decodes on the other to its opcode, block and data, for every block and payload |
| Packet.AckRoundTrip | protocols/ftp/tftp_client/src/utils.h:105-145 | the same for ACK |
| Packet.DataReencodes | protocols/ftp/tftp_client/src/utils.h:118-180 | a buffer re-encodes to itself exactly when it is DATA with room for a block number |
| Packet.FilenameRoundTrip | protocols/ftp/tftp_server/src/utils.h:133-143 | the server reads back the name of a client request exactly when it has no NUL |
| Packet.ErrorRoundTrip | protocols/ftp/tftp_client/src/utils.h:152-167 | the client reads back a server ERROR exactly when its message is not empty |
| Packet.GetFilename | protocols/ftp/tftp_server/src/utils.h:133-143 | the copying loop computes the prefix up to the first NUL |
| Packet.DataToBuffer | protocols/ftp/tftp_client/src/utils.h:74-103 | appending field by field, each integer byte-reversed, gives the DATA layout |
| Packet.AckToBuffer | protocols/ftp/tftp_client/src/utils.h:74-107 | the same for ACK |
| Packet.ErrorToBuffer | protocols/ftp/tftp_server/src/utils.h:79-107 | the same for ERROR, with a closing NUL |
| Packet.RequestToBuffer | protocols/ftp/tftp_client/src/utils.h:93-99 | the same for requests, with name and mode each closed by NUL |
| Machine.AcceptedBlocks | protocols/ftp/tftp_server/src/server.cpp:183-189 | the receiver accepts exactly the whole encodings of block c + 1, so none shorter than 4 bytes and none after block 65535 |
| Machine.AcceptedAcks | protocols/ftp/tftp_client/src/client.cpp:140-146 | exactly which buffers the sender takes for its acknowledgement |
| Chunks.ChunkingIsExact | protocols/ftp/tftp_client/src/client.cpp:95-153 | length / 512 + 1 payloads for a non-empty file and none for an empty one, all but the last full, concatenating to the file |
| Loops.Watchdog.Elapse | protocols/ftp/tftp_server/src/utils.h:185-201 | the flag is raised when the interval has passed and stays raised |
| Loops.Watchdog.Reset | protocols/ftp/tftp_server/src/utils.h:185-193 | a reset starts the interval again and does not clear the flag |
| Loops.InputStream.Read | protocols/ftp/tftp_client/src/client.cpp:95-98 | what one read puts in the buffer, and when it raises end of file |
| Loops.NextBlock | protocols/ftp/tftp_server/src/server.cpp:124-126 | reading as many bytes as the last read gave and wrapping the block number loads exactly the next chunk |
| Loops.SendLoop | protocols/ftp/tftp_server/src/server.cpp:65-135 | against every environment the loop sends what the abstract sender sends and returns what it returns, and never reports a stream fault |
| Loops.ServerReceiveLoop | protocols/ftp/tftp_server/src/server.cpp:137-209 | the same for the server's receiver, and its file holds the abstract receiver's bytes |
| Loops.ClientReceiveLoop | protocols/ftp/tftp_client/src/client.cpp:163-234 | the same for the client's receiver, from its first response |
| Clients.ReadClient | protocols/ftp/tftp_client/src/client.cpp:285-332 | success leaves a target that, over an honest network, equals the source; unless the first response is DATA 1 the target is untouched, and if it is, any error leaves no target |
| Clients.WriteClient | protocols/ftp/tftp_client/src/client.cpp:238-283 | success for a file of at most 33,553,919 bytes means that, over an honest network, the server has written all of it |
| Clients.SenderRunsItsLoop | protocols/ftp/tftp_server/src/server.cpp:81-127 | in every run of the whole system the sender is its loop run on its own waits, and the datagrams sent are the loop's |
| Clients.ReceiverRunsItsLoop | protocols/ftp/tftp_server/src/server.cpp:146-201 | the same for the receiver |
| Network.StepKeepsInv | protocols/ftp/tftp_server/src/server.cpp:81-201 | every step of either side, and passing time, keep the invariant: lock step, genuine packets only, written bytes a prefix |
| Network.NextBlockIsNextChunk | protocols/ftp/tftp_server/src/server.cpp:183-200 | a genuine packet with the next block number carries exactly the next chunk, whatever numbers have wrapped |
| Delivery.WrittenIsPrefix | protocols/ftp/tftp_server/src/server.cpp:146-201 | in every reachable state, for files of any length and both directions, the bytes written are the first min(512 c, length) of the source |
| Delivery.ReceiverSuccessIsExact | protocols/ftp/tftp_client/src/client.cpp:190-193 | a receiver's success means the output is the source, which then has 1 to 33,553,919 bytes |
| Delivery.WrittenIsBounded | protocols/ftp/tftp_server/src/server.cpp:187 | no run writes more than 65535 * 512 bytes |
| Delivery.SidesMoveInLockStep | protocols/ftp/tftp_server/src/server.cpp:86-126 | up to block 65535: c <= k <= c + 1, every ACK ever sent is at most c, every DATA ever sent carries the chunk its number names |
| Delivery.SenderSuccessIsSound | protocols/ftp/tftp_client/src/client.cpp:107-160 | a sender's success, in a read of any length or a write of up to 33,553,919 bytes, means that every byte is written and, exactly if the file is not empty, that the receiver has accepted the short block that ends it |
| Delivery.EmptyFileNeverArrives | protocols/ftp/tftp_server/src/server.cpp:79-127 | with an empty file the receiver accepts nothing and never succeeds, and the client of a read is in its handshake or has failed |
| Wraparound.WriteSuccessIsSoundIff | protocols/ftp/tftp_client/src/client.cpp:107-160 | the exact file lengths for which a write's success is sound: at most 33,553,920 for the bytes, 1 to 33,553,919 for the short last block |
| Wraparound.ReadSuccessIsSoundIff | protocols/ftp/tftp_server/src/server.cpp:79-127 | a read's success always means that the bytes are written, and that a short block has been accepted exactly if the file is not empty |
| Wraparound.OrderedAcksAreSound | protocols/ftp/tftp_client/src/client.cpp:140-152 | in every run of a write in which the ACK numbers that reach the sender never go back, whatever is lost, repeated or late, success means at most 33,553,919 bytes, all written, and the last block accepted unless there is none |
| Wraparound.OverlongWriteSucceedsEarly | protocols/ftp/tftp_client/src/client.cpp:140-152 | every longer write has a run of genuine packets, full waits and successful sends, in which ACKs come again behind later ones, that ends in unsound success |
| Progress.NeverStuck | protocols/ftp/tftp_server/src/server.cpp:81-127 | from every reachable state with no failed side and no expired watchdog, genuine deliveries and full waits can finish the transfer |
| Progress.ExactCapacity | protocols/ftp/tftp_client/src/client.cpp:216 | both sides can succeed, and a receiver can succeed, if and only if the file has 1 to 33,553,919 bytes |
| OneWay.ReceiverCanSucceedAlone | protocols/ftp/tftp_server/src/server.cpp:79-84 | some run ends with the receiver successful, the whole file written and the sender timed out, exactly for the files of 1 to 33,553,919 bytes |
| Runs.SendLoopEndsInTime | protocols/ftp/tftp_server/src/server.cpp:79-84 | against any peer n blocks take less than 12000 n ms, and with waits of at least 1 ms the loop ends; an empty file ends at once |
| Runs.ReceiveLoopEndsInTime | protocols/ftp/tftp_server/src/server.cpp:143-200 | against any peer less than 12000 * (65536 - c) ms from first block c, and termination |
| Watch.SenderTimesOutAfterQuiet | protocols/ftp/tftp_server/src/server.cpp:79-84 | a sending loop that timed out went through 10,000 ms without an acknowledged block, and one that still waits did not |
| Watch.ReceiverTimesOutAfterQuiet | protocols/ftp/tftp_server/src/server.cpp:143-149 | the same for either receiving loop and accepted blocks |
| Watch.ExpiredExactlyAfterQuiet | protocols/ftp/tftp_server/src/utils.h:185-201 | the watchdog's flag is up exactly if its interval once passed between resets |
| Outcomes.SenderOutcomeIsExact | protocols/ftp/tftp_server/src/server.cpp:79-135 | against any peer: success exactly if every block has been acknowledged, however late; otherwise a time-out exactly after 10,000 quiet ms; otherwise a failed send, or still waiting |
| Outcomes.SenderMovesExactly | protocols/ftp/tftp_client/src/client.cpp:121-153 | the loop moves on exactly when bytes 0, 4 and its block number come from the peer, or an ACK too short for a number when that is 0 |
| Outcomes.SenderSaysExactly | protocols/ftp/tftp_server/src/server.cpp:81-127 | after each wait, first the ERROR to a stranger, then the block that is due if the loop goes on, and nothing else |
| Outcomes.ReceiverOutcomeIsExact | protocols/ftp/tftp_server/src/server.cpp:143-209 | success exactly if a wait brought no packet after the last block, however late; otherwise as for the sender |
| Outcomes.ReceiverMovesExactly | protocols/ftp/tftp_server/src/server.cpp:158-201 | the loop moves on and writes exactly when bytes 0, 3 and the next block number come from the peer, and remembers short blocks |
| Outcomes.ReceiverSaysExactly | protocols/ftp/tftp_server/src/server.cpp:146-201 | after each wait, first the ERROR to a stranger, then the ACK of the last block if the loop goes on |
| Outcomes.LongBlockIsCut | protocols/ftp/tftp_server/src/server.cpp:15-58 | a DATA packet of any length is accepted, and cut to 1024 bytes |
| Outcomes.WriteRequestOutcome | protocols/ftp/tftp_client/src/client.cpp:65-91 | no response, an ERROR with a message, ACK 0 and anything else lead to a time-out, a refusal, the loop and an abort |
| Outcomes.ReadRequestOutcome | protocols/ftp/tftp_client/src/client.cpp:285-315 | the same for a read request and DATA 1, whose bytes are the first written |
| Runs.SuccessEmitsWholeFile | protocols/ftp/tftp_server/src/server.cpp:72-127 | a successful sender has emitted, repetitions aside, block after block of the file with 16-bit numbers |
| Runs.WaitingHasEmittedPrefix | protocols/ftp/tftp_server/src/server.cpp:86-92 | at any wait the distinct packets emitted are exactly the blocks so far |
| Strays.StraysDoNotTouchSender | protocols/ftp/tftp_server/src/server.cpp:106-120 | replacing strays by ignored packets of the peer changes no state and no datagram to the peer; what goes to others is, also once the loop has ended, exactly one ERROR to the origin of each stray before its end, in order |
| Strays.StraysDoNotTouchReceiver | protocols/ftp/tftp_client/src/client.cpp:204-218 | the same for either receiving loop |
| Strays.ReplyIsError5 | protocols/ftp/tftp_client/src/client.cpp:134-136 | the reply to a stray decodes as ERROR 5 with its text, with a full stop everywhere but in the server's sending loop |
| Agreement.ReceiveLoopsAgree | protocols/ftp/tftp_client/src/client.cpp:168-226 | from the same first block and on the same events both receiving loops send, write and return the same if and only if no wait ends without a packet after a full block was accepted behind a short one |
| Agreement.LateFullBlockSplitsLoops | protocols/ftp/tftp_server/src/server.cpp:161-164 | events on which they differ: after an empty block 1, a full block 2 and silence the server's loop has succeeded, the client's has sent one more ACK and waits |
| Maildrops.Storage.PushBack | protocols/mail/smtp_server/src/smtp.cpp:257 | appending through two indexings makes what is missing and leaves the rest |
| Maildrops.Storage.Deliver | protocols/mail/smtp_server/src/smtp.cpp:253-259 | the loop over the recipient set, in whatever order, gives each local recipient one copy and changes nothing else |
| Maildrops.LocalExactly | protocols/mail/smtp_server/src/smtp.cpp:72-73 | an address is local exactly if it has "@localhost", each letter in either case, somewhere in it |
| Maildrops.MessageSizeAdds | protocols/mail/smtp_server/src/pop3.cpp:39-42 | the size of a message is the number of characters of its lines |
| Maildrops.OctetsAreTotal | protocols/mail/smtp_server/src/pop3.cpp:179-181 | the int accumulation equals the true total exactly below 2^31 |
| Smtp.ReadMultipleLines | protocols/mail/smtp_server/src/smtp.cpp:112-125 | the body is the input up to and with the first "." line, and the read fails exactly when there is none |
| Smtp.SmtpSession.Resume | protocols/mail/smtp_server/src/smtp.cpp:129-277 | one resumption is one step of the session and the delivery it makes |
| Smtp.AsksForBodyExactly | protocols/mail/smtp_server/src/smtp.cpp:211-251 | after any input the session asks for a body exactly when the last line was DATA in an open transaction with a recipient |
| Smtp.DeliversTransactions | protocols/mail/smtp_server/src/smtp.cpp:142-265 | for every command trace the mails delivered are, body by body, sender, recipient set and lines of one transaction after HELO, MAIL and RCPT |
| Smtp.RepliesAnswerInputs | protocols/mail/smtp_server/src/smtp.cpp:129-277 | every line and every body is answered by exactly one reply, in order, and each code follows from the inputs before it: HELO given, transaction open, recipient named |
| Smtp.EndsExactly | protocols/mail/smtp_server/src/smtp.cpp:135-277 | a session has ended exactly if its connection was lost or QUIT was read and its reply written, and before that it reads exactly when the reply before is written |
| Smtp.QuitEnds | protocols/mail/smtp_server/src/smtp.cpp:163-270 | QUIT in whatever state is the last input; it is answered 221, and the next event ends the session |
| Pop3.GetMessageSize | protocols/mail/smtp_server/src/pop3.cpp:39-42 | the accumulation is the sum of the line lengths |
| Pop3.AccumulateOctets | protocols/mail/smtp_server/src/pop3.cpp:179-181 | the accumulation with an int result |
| Pop3.Pop3Session.Resume | protocols/mail/smtp_server/src/pop3.cpp:80-218 | one resumption is one step of session, lock object and storage |
| Pop3Dialogue.RunIsExpected | protocols/mail/smtp_server/src/pop3.cpp:80-218 | for every dialogue and every storage that keeps its users: the user, all replies, the lock and the point of a session, read off its lines and the storage each resumption found |
| Pop3Dialogue.StepIsExpected | protocols/mail/smtp_server/src/pop3.cpp:120-142 | and the storage each resumption leaves: locked by the PASS that opens it, unlocked by the end, unchanged by everything else |
| Pop3Dialogue.UserIsFirstNamed | protocols/mail/smtp_server/src/pop3.cpp:101-119 | the user is the first name in a USER line that had a maildrop when it was read, if there is one |
| Pop3Dialogue.QuitEnds | protocols/mail/smtp_server/src/pop3.cpp:194-210 | QUIT in either phase is the last line; its reply is written or lost, and then the session has ended without a lock |
| Imap.ImapSession.Resume | protocols/mail/smtp_server/src/imap.cpp:74-193 | one resumption is one step of the session, with the iteration of LIST * at a position of the order the map had when it began, and the storage is not touched |
| ImapDialogue.RunIsExpected | protocols/mail/smtp_server/src/imap.cpp:74-193 | for every dialogue and every storage in which nobody goes away: the user, all replies and the point of a session, read off its lines |
| ImapDialogue.UserIsFirstLogin | protocols/mail/smtp_server/src/imap.cpp:93-114 | the user is the name of the first LOGIN whose user had a maildrop, with "@localhost" added exactly if it has no "@" |
| ImapDialogue.LogoutEnds | protocols/mail/smtp_server/src/imap.cpp:116-185 | LOGOUT, logged in or not, is the last line; BYE and the tagged OK follow, and when they are written or lost the session has ended |
| MailServer.FillStorage | protocols/mail/smtp_server/src/main.cpp:20-33 | the insertions build the initial maildrops |
| Process.MailProcess.AcceptConnection | protocols/mail/smtp_server/src/main.cpp:9-17 | a connection gets a new session object, apart from all others, over the one storage |
| Process.MailProcess.Handle | protocols/mail/smtp_server/src/main.cpp:9-17 | whatever happens to one object, the process takes one step of the server model and no other session changes |
| Process.Serve | protocols/mail/smtp_server/src/main.cpp:20-61 | over any run the storage and all session objects are where the server model is |
| Dialogues.SessionsAreTheirDialogues | protocols/mail/smtp_server/src/main.cpp:9-17 | over every run a session is of the protocol its connection came for, and POP3 and IMAP sessions are where their own dialogues lead |
| Dialogues.Pop3SessionIsItsDialogue | protocols/mail/smtp_server/src/pop3.cpp:80-218 | over every run a POP3 session's user, replies, lock and point are those its dialogue says |
| Dialogues.ImapSessionIsItsDialogue | protocols/mail/smtp_server/src/imap.cpp:74-193 | the same for IMAP |
| Dialogues.LocksFollowDialogues | protocols/mail/smtp_server/src/pop3.cpp:101-142 | a maildrop is locked exactly while one session has named its user in USER, opened it with PASS and not ended, and it is the only one |
| Dialogues.QuitFreesMaildrop | protocols/mail/smtp_server/src/pop3.cpp:194-210 | after QUIT the next event of the session ends it and unlocks the maildrop it held |
| Dialogues.ListsAreForNamedUser | protocols/mail/smtp_server/src/pop3.cpp:161-190 | every LIST answered to its end is about the INBOX of the user named in USER |
| Dialogues.ImapListsAreForLoggedIn | protocols/mail/smtp_server/src/imap.cpp:93-160 | every LIST * answered to its end lists the mailboxes of the user named in LOGIN |
| Dialogues.LogoutEndsSession | protocols/mail/smtp_server/src/imap.cpp:116-185 | LOGOUT ends an IMAP session of the server, with its replies or without |
| MailServer.StepKeepsInv | protocols/mail/smtp_server/src/pop3.cpp:80-218 | every resumption of every session, with or without an exception, keeps the server's invariant and lets the storage only grow |
| Guarantees.LockHasOneHolder | protocols/mail/smtp_server/src/pop3.cpp:120-142 | over all interleavings a maildrop is locked exactly while one live session is past its PASS, and it is the only one |
| Guarantees.PassOpensExactlyIfFree | protocols/mail/smtp_server/src/pop3.cpp:128-141 | PASS opens the maildrop exactly when no session holds its lock |
| Guarantees.EndingReleasesLock | protocols/mail/smtp_server/src/pop3.cpp:86-217 | a step of the holder ends it exactly if the maildrop is unlocked afterwards |
| Listings.ListCountIsExact | protocols/mail/smtp_server/src/pop3.cpp:183-190 | over all runs: a completed LIST lists the announced number of messages and one more for each mail delivered to its user between the actions that wrote its header and its end, so the number is right exactly if there was none |
| Listings.ListAnswersAreRight | protocols/mail/smtp_server/src/pop3.cpp:161-190 | the whole answer: entries 1 to that m with the sizes of the first m messages, and announced octets that are the total of the announced messages exactly below 2^31 |
| Listings.ListEndsInTime | protocols/mail/smtp_server/src/pop3.cpp:183-190 | while a LIST goes on, its session is resumed at most as often as messages are left and mails come in for its user |
| Listings.ListCanGoOn | protocols/mail/smtp_server/src/pop3.cpp:183-190 | for every n a reachable LIST that announced one message, has listed n and has not ended |
| Listings.ListCanListMore | protocols/mail/smtp_server/src/pop3.cpp:183-190 | for every n from 1 a run whose LIST announces one message, lists n and ends |
| Listings.OctetsCanBeNegative | protocols/mail/smtp_server/src/pop3.cpp:179-183 | a run whose LIST announces a negative number of octets |
| Listings.CanDeliver | protocols/mail/smtp_server/src/smtp.cpp:137-265 | from every reachable state a new SMTP session can deliver any body to any local address classified as valid, which changes the storage by just that mail |
| Guarantees.Pop3LookupsNeverFail | protocols/mail/smtp_server/src/pop3.cpp:129-188 | exactly how a POP3 session can end, so no look-up of a user or of INBOX throws |
| Guarantees.ImapLookupsNeverFail | protocols/mail/smtp_server/src/imap.cpp:152-158 | exactly how an IMAP session can end, so no look-up throws |
| Guarantees.ImapListIsComplete | protocols/mail/smtp_server/src/imap.cpp:152-160 | in every reachable state, every LIST * ever answered to its end is one line for each mailbox its user has, none twice, and no other line, whatever was delivered between its lines and since |
| Guarantees.StorageOnlyGrows | protocols/mail/smtp_server/src/smtp.cpp:253-259 | between any two moments users stay, mailbox names stay, other mailboxes stay as they are, and an INBOX grows only at its end |
| Conservation.StorageHoldsDeliveries | protocols/mail/smtp_server/src/smtp.cpp:253-259 | the whole storage is determined by the deliveries: who has a maildrop, every INBOX as its initial content and then one copy of each mail for its user in order, every other mailbox as at the start, and INBOX alone for a user that a delivery made |
| Conservation.MailIsConserved | protocols/mail/smtp_server/src/smtp.cpp:253-259 | the mails of all mailboxes of all users are the initial ones plus one copy per distinct local recipient of each delivery |
| Guarantees.DeliveriesAreTransactions | protocols/mail/smtp_server/src/smtp.cpp:142-265 | in every interleaving the mails each session delivered are, one for each body it read and in that order, its own complete transactions |

## Left out

- Strays: the log of a loop records the attempt to send an ERROR, whose failure the source ignores.
- Sockets, coroutines, the resolver, signals and debug printing: a suspension ends with an event of the model. Sending takes no time, and a receive error is a time-out at any moment, as `receive_packet` reports it.
- The choice of peer: the first response is taken to come from the true peer, after one accepted request. Request retries, duplicated requests, refusals for missing or existing files, paths and permissions are not modelled.
- Failing file streams: writes succeed, so the receiving loops have no `good()` test to fail; the sender's fault branch is kept and shown unreachable.
- A watchdog timer that expires in the same instant as a packet arrives counts as expired.
- Regular expressions: a request line of the mail protocols arrives classified as a command with its arguments and a validity flag, so an address that counts as valid need not be one the pattern takes, and a line may hold any characters. `is_local` is the case-insensitive search it stands for, for ASCII letters.
- Line framing, and input lost with the local stream buffer when commands are pipelined: one line per read. The body read of SMTP does not suspend and is one atomic step.
- `try_lock` by the one thread that already owns the mutex is undefined in the C++ standard; the model takes it to fail, as it does in practice. The storage's `write_lock` is never contended and is not modelled.
- `std::unordered_map`: the event that starts LIST * brings any order of the names the map has at that moment, and the iteration keeps to it. Insertion of a name would invalidate the C++ iterator; that no name is ever added is proved.
- Reply texts: POP3, IMAP and SMTP replies are constructors and codes with their numbers.
- POP3 octets as a standards claim: sizes are what `get_message_size` counts, without line ends and with the closing "." line.
- The FTP client, the IMAP and POP3 clients and the GUI, `kathara/` and `server/`: no further logic of this kind.
