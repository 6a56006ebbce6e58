# Verified model of the rjcore service and the androint driver

A Dafny 4.11 model of the parts of this repository that hold state, protocols and codecs,
with proofs of what they promise. `dafny verify dfyconfig.toml` checks everything.

| module | what it models |
|---|---|
| VendorSector | the vendor sector and one `setDeviceResolution` call; sequential runs refine an abstract record |
| SectorThreads | the same call on the Binder thread pool: any number of threads, any interleaving |
| Basics, Runs | optional values and 32-bit ints; runs of a step system |
| Parcels, RjcoreBinder | the Parcel as a tape with a cursor, the proxy, the stub and the 37 transactions |
| AndrointDriver, AndrointClients | the character driver, its HAL client, and interleaved clients of it |
| Capture | `executeCmd` over `fgets`, and the callers that trim what it captured |
| Decimal, LinkModes | decimal numerals, and the link-mode test of `getNetcardMaxSpeed` |
| OtaFlag | the update flag, read with `sscanf` and compared with `strncmp` |
| SizeScaling | integer and real K/M/G scaling |
| ProductId, NandRecord, RjcoreService | the identity record in NAND, the object it initialises, and what that gates |
| SigChild | the SIGCHLD save and restore of `mySystem` |
| Resolutions | the resolution bitmask and its printed list |
| ClientSession | a client program through Binder against the assembled service, and the same program on the service and device objects |

## Reading the model

- The ABI is explicit where it matters. `Abi(signedChar, wideLong)` is a parameter of the
  product id, of the length bytes in NAND and of the resolution mask; 32-bit ARM is
  `Abi(false, false)`. The `unsigned short` stores to the sector are little-endian. Signed
  sums in the driver wrap at 32 bits.
- Chars stand for bytes. `String16` is taken as the text itself, which is what the
  conversion gives for ASCII.
- Calls into the kernel, the C library and the shell are inputs: whether a device
  operation succeeds, what a command prints, what `system` returns.
- Concurrent code is a step relation over states. A run is a sequence of states, and the
  results hold for every run, every state of it and any number of participants. `log`,
  `versions`, `left`, `now` and `first` only record history; no step tests them.
- Induction is always written out: Dafny's automatic induction is off for every lemma.
- In the driver the critical section is several steps: the two words are read, or copied,
  one after the other.

## Promises that do not hold as they stand

For each there is a run or an input that breaks it, and the exact condition under which it
holds.

- A false return of `setDeviceResolution` does not mean that nothing was stored
  (`FalseReturnCanChangeTheSector`, `FalseReturn`).
- A stored resolution can be lost to a concurrent flag=0 call (`LostUpdate`,
  `SerialIffNothingLost`).
- The link-mode tests go by last digits, so 11000 is taken for 1000 (`Impostor`,
  `MaxSpeedIsLargestIff`).
- Overlapping `mySystem` calls can lose the SIGCHLD handler (`OverlapLosesHandler`,
  `PromiseIffFirstEndsLast`).
- A one-byte serial number is read with the second header byte behind it
  (`ParsingUndoesLayout`).
- The product id depends on the ABI (`IdStringIff`), and so does the resolution mask
  (`SupportIndexIff`).
- A faulting write to the driver is visible to later readers (`FaultingWriteIsVisible`,
  `ReadMatchesLastSuccessIff`).
- The LED and power commands are gated by the product type and not by `mInit`
  (`CommandsWithoutInit`, `GatedByInitIff`).
- Output with a NUL is captured with text missing (`NulDropsText`,
  `CaptureIsPrefixIffNoNul`).
- The stub's argument lists leave the order of the reads to the compiler
  (`IntactIff`, `AnyReadOrderIff`, `OnlyLeftToRightServesAll`).

## Model

| member | source | states |
|---|---|---|
| VendorSector.Edit | framework/native_server/rjcoreservice/librjcoreservice/RjcoreServiceProduct.cpp:618-626 | an edit touches bytes 1..6 only; flag=1 makes the sector decode to the requested resolution and marks it; flag=0 clears the mark and nothing else |
| VendorSector.EditDependsOn | framework/native_server/rjcoreservice/librjcoreservice/RjcoreServiceProduct.cpp:618-626 | two sectors that agree outside bytes 1..6 give the same edited sector iff the call is flag=1 or they hold the same mode |
| VendorSector.VendorDevice.SetDeviceResolution | framework/native_server/rjcoreservice/librjcoreservice/RjcoreServiceProduct.cpp:573-647 | one call against the device, all exits, in numbers: true iff the four parameters are in range and the open, both GETs and the STORE succeed; a stored flag=1 call leaves 0xAC and the three little-endian values in bytes 1..6, a stored flag=0 call a 0 in byte 1, any other call nothing |
| VendorSector.AcceptedIff | framework/native_server/rjcoreservice/librjcoreservice/RjcoreServiceProduct.cpp:580-598 | the parameter checks admit a call iff its flag is 0 or 1 and some sector holds its resolution as a marked one in range |
| VendorSector.SequentialRefinement | framework/native_server/rjcoreservice/librjcoreservice/RjcoreServiceProduct.cpp:573-647 | any sequential run implements an abstract record (enabled, x, y, refresh) and keeps the other bytes |
| VendorSector.LastStoredCallWins | framework/native_server/rjcoreservice/librjcoreservice/RjcoreServiceProduct.cpp:618-627 | after a run the bytes are those of the last stored flag=1 call; the mark survives iff nothing was stored later |
| VendorSector.FalseReturn | framework/native_server/rjcoreservice/librjcoreservice/RjcoreServiceProduct.cpp:627-640 | a false return leaves the sector unchanged iff nothing was stored or the stored bytes were already there |
| VendorSector.FalseReturnCanChangeTheSector | framework/native_server/rjcoreservice/librjcoreservice/RjcoreServiceProduct.cpp:633-640 | a call that fails in its last GET returns false with the sector changed |
| SectorThreads.RunKeepsInv | framework/native_server/rjcoreservice/librjcoreservice/RjcoreServiceProduct.cpp:600-642 | any number of threads, any interleaving: the k-th STORE wrote the edit of the version its GET returned |
| SectorThreads.AnyInterleavingIsSafe | framework/native_server/rjcoreservice/librjcoreservice/RjcoreServiceProduct.cpp:580-640 | in every reachable state bytes outside 1..6 are the initial ones, bytes 2..6 are the initial ones or those of one flag=1 call, and a marked resolution is in range |
| SectorThreads.TrueMeansStored | framework/native_server/rjcoreservice/librjcoreservice/RjcoreServiceProduct.cpp:627-646 | a call that returned true has its own accepted STORE in the history: of its own thread, for its own call, and shared with no other thread's true call |
| SectorThreads.LaterTrueIsStoredLater | framework/native_server/rjcoreservice/librjcoreservice/RjcoreServiceProduct.cpp:573-646 | real-time order: a true call that returned before another call began, of the same thread or another, has its STORE before that call's, when that returned true as well |
| SectorThreads.SerialIffNothingLost | framework/native_server/rjcoreservice/librjcoreservice/RjcoreServiceProduct.cpp:608-627 | every value the sector has held is that of running the stored calls one after another iff no flag=0 call stored a stale mode |
| SectorThreads.DisjointWindowsAreSerial | framework/native_server/rjcoreservice/librjcoreservice/RjcoreServiceProduct.cpp:608-627 | calls whose GET..STORE windows do not overlap are serial |
| SectorThreads.LostUpdate | framework/native_server/rjcoreservice/librjcoreservice/RjcoreServiceProduct.cpp:608-627 | for every sector there is a run in which a flag=0 call wipes out a resolution whose call returned true |
| SectorThreads.SoloCallIsSequential | framework/native_server/rjcoreservice/librjcoreservice/RjcoreServiceProduct.cpp:573-647 | every sequence of events of one thread that makes one call and returns has the sequential result and return value, and leaves the other threads where they were |
| SectorThreads.SoloCallReturns | framework/native_server/rjcoreservice/librjcoreservice/RjcoreServiceProduct.cpp:573-647 | there is such a sequence, of at most six events, however the device operations end |
| RjcoreBinder.WriteArgs | framework/native_server/rjcoreservice/librjcore/IRjcoreService.cpp:71-388 | the arguments each proxy method writes, in order, for all 37 calls |
| RjcoreBinder.CodesAre | framework/native_server/rjcoreservice/librjcore/IRjcoreService.cpp:14-59 | the transaction codes are 1 to 37, call by call |
| RjcoreBinder.ParcelsAre | framework/native_server/rjcoreservice/librjcore/IRjcoreService.cpp:71-391 | the interface token and the items of each call with several arguments |
| RjcoreBinder.KindIsDeclared | framework/native_server/rjcoreservice/include/IRjcoreService.h:21-63 | the kind the proxy reads and the stub writes is, call by call, the type that the interface declares |
| RjcoreBinder.ReadCall | framework/native_server/rjcoreservice/librjcore/IRjcoreService.cpp:395-661 | inverse of the proxy: on a tape that carries what the proxy wrote for a call of this code, the stub makes that call and leaves nothing unread; on any other tape, one read for each argument and the zero value for what is missing or of the wrong kind |
| RjcoreBinder.OnTransact | framework/native_server/rjcoreservice/librjcore/IRjcoreService.cpp:395-661 | a known code with the right token reaches the service once, with the call that was sent, and answers with status 0, a zero exception code and its value; anything else leaves service and reply untouched, with status -1 or -74 |
| RjcoreBinder.MarshallingIsInjective | framework/native_server/rjcoreservice/librjcore/IRjcoreService.cpp:71-388 | for all 37 codes, the code and the items written determine the call |
| RjcoreBinder.ReadingUndoesMarshalling | framework/native_server/rjcoreservice/librjcore/IRjcoreService.cpp:71-661 | reading from left to right, at any place of a tape, rebuilds the call whose items follow and ends at the end of the tape |
| RjcoreBinder.ValueRoundTrip | framework/native_server/rjcoreservice/librjcore/IRjcoreService.cpp:71-388 | the proxy reads back the value the stub wrote, and the zero value from an empty reply |
| RjcoreBinder.Invoke | framework/native_server/rjcoreservice/librjcore/IRjcoreService.cpp:71-388 | a delivered proxy call has the result and the effect of the direct call, for every implementation that answers with the declared types; an undelivered one returns the zero value of the declared type and touches nothing |
| RjcoreBinder.ClientRun | framework/native_server/rjcoreservice/tests/rjcoreserver_tests.cpp:48-186 | any sequence of proxy calls performs the same service calls, in order, with the same results and final state as calling the service directly |
| RjcoreBinder.IntactIff | framework/native_server/rjcoreservice/librjcore/IRjcoreService.cpp:497-625 | for every call and every order of the stub's reads: the call arrives intact iff each argument fits the item read for it |
| RjcoreBinder.AnyReadOrderIff | framework/native_server/rjcoreservice/librjcore/IRjcoreService.cpp:497-625 | a call arrives intact in every order iff nothing tells its arguments apart: equal strings or numbers, and for `ping_block` an empty address and three zeros |
| RjcoreBinder.AddressFirstIff | framework/native_server/rjcoreservice/librjcore/IRjcoreService.cpp:613-619 | of the orders that read the address of `ping_block` first, all deliver the call iff its three numbers are equal |
| RjcoreBinder.OnlyLeftToRightServesAll | framework/native_server/rjcoreservice/librjcore/IRjcoreService.cpp:497-625 | for every code, an order delivers all calls intact iff it is left to right |
| AndrointDriver.Wrap32 | mokoid-stub-comment/mokoid-stub/androint-moko365/androint_mod_add/androint_module.c:70 | the sum is congruent to a + b modulo 2^32 |
| AndrointDriver.AndrointDevice.Access | mokoid-stub-comment/mokoid-stub/androint-moko365/androint_mod_add/androint_module.c:59-104 | every exit leaves the semaphore free; the returned value (-512, 0, -14, 4 or 8), the pair left and the delivered sum modulo 2^32, in numbers, for each |
| AndrointDriver.AddAndroint | mokoid-stub-comment/mokoid-stub/androint-moko365/androint-hal/androint-hal.c:30-45 | what the HAL returns and what the device then holds, for every combination of failed open, interrupted or torn write, interrupted or faulting read (which may leave anything in the result); the direct sum when nothing fails |
| AndrointClients.MutualExclusion | mokoid-stub-comment/mokoid-stub/androint-moko365/androint_mod_add/androint_module.c:66-102 | over any interleaving the semaphore count plus the clients in the section is 1, and two clients in the section are the same |
| AndrointClients.HolderCanLeave | mokoid-stub-comment/mokoid-stub/androint-moko365/androint_mod_add/androint_module.c:66-103 | whoever holds the semaphore gives it back by its own steps, from every point of the section |
| AndrointClients.FireKeepsInv | mokoid-stub-comment/mokoid-stub/androint-moko365/androint_mod_add/androint_module.c:66-103 | one step of any client, the two words of the pair being moved separately, keeps the history a sequential execution |
| AndrointClients.Linearizable | mokoid-stub-comment/mokoid-stub/androint-moko365/androint_mod_add/androint_module.c:59-118 | the history is a sequential execution with the same outcomes, each request works between its call and its exit, real-time order is kept, and every client that has returned holds the outcome of its latest exit or was interrupted |
| AndrointClients.ReadReturnsLastLanding | mokoid-stub-comment/mokoid-stub/androint-moko365/androint_mod_add/androint_module.c:68-99 | every successful read returns the wrapped sum of the last write to reach the device before it |
| AndrointClients.OnlyLandingWritesChangePair | mokoid-stub-comment/mokoid-stub/androint-moko365/androint_mod_add/androint_module.c:66-92 | only a full-size write in the section ever changes the pair |
| AndrointClients.ReadMatchesLastSuccessIff | mokoid-stub-comment/mokoid-stub/androint-moko365/androint_mod_add/androint_module.c:68-99 | for every run and every successful read: it returns the sum of the last successful write iff no later write landed or the last one to land, a torn one, left a pair of that sum |
| AndrointClients.WithoutFaultsSuccessIsLanding | mokoid-stub-comment/mokoid-stub/androint-moko365/androint_mod_add/androint_module.c:88-99 | without faulting copies the writes that reach the device are the successful ones, with the caller's pair |
| AndrointClients.HalAddUnderInterference | mokoid-stub-comment/mokoid-stub/androint-moko365/androint-hal/androint-hal.c:30-45 | among other clients the HAL returns the direct sum when no write lands between its write and its read, and the sum of the latest such write otherwise |
| AndrointClients.FaultingWriteIsVisible | mokoid-stub-comment/mokoid-stub/androint-moko365/androint_mod_add/androint_module.c:88-97 | a write that reports -EFAULT is still what the next read sees |
| AndrointClients.CrossedAdds | mokoid-stub-comment/mokoid-stub/androint-moko365/androint-hal/androint-hal.c:39-44 | two crossed adds: one client is given the sum the other asked for |
| AndrointClients.Serve | mokoid-stub-comment/mokoid-stub/androint-moko365/androint_mod_add/androint_module.c:66-103 | every run that ends with the semaphore free can be extended by a request running to its return |
| AndrointClients.HalfWritten | mokoid-stub-comment/mokoid-stub/androint-moko365/androint_mod_add/androint_module.c:88-92 | the words move one at a time: any pair can be left half written while the semaphore is held |
| Capture.CStrIs | framework/native_server/rjcoreservice/librjcoreservice/RjcoreService.cpp:81 | strlen stops at the first NUL: the C string is the longest NUL-free prefix |
| Capture.Pipe.Fgets | framework/native_server/rjcoreservice/librjcoreservice/RjcoreService.cpp:80 | one line, or as much as fits, and a NUL; nothing else in the buffer changes |
| Capture.ExecuteCmd | framework/native_server/rjcoreservice/librjcoreservice/RjcoreService.cpp:69-95 | for any output, endless ones included: ends within size rounds, writes nothing at or past size, and leaves the gathered text and a NUL |
| Capture.GatheredFits | framework/native_server/rjcoreservice/librjcoreservice/RjcoreService.cpp:75-88 | what is gathered is NUL-free and leaves room for the NUL |
| Capture.CaptureIsPrefixIffNoNul | framework/native_server/rjcoreservice/librjcoreservice/RjcoreService.cpp:75-88 | the buffer holds the first size-1 chars of the output iff there is no NUL among them |
| Capture.NulDropsText | framework/native_server/rjcoreservice/librjcoreservice/RjcoreService.cpp:80-88 | an output with a NUL loses text |
| Capture.Trim | framework/native_server/rjcoreservice/librjcoreservice/RjcoreServiceNetwork.cpp:87-90 | at most one final newline is removed |
| Capture.CaptureTrimmed | framework/native_server/rjcoreservice/librjcoreservice/RjcoreServiceNetwork.cpp:79-95 | the command is run once; the captured text less a final newline, empty for empty output, no index before the buffer |
| Capture.GetNetcardCurSpeed | framework/native_server/rjcoreservice/librjcoreservice/RjcoreServiceNetwork.cpp:79-95 | the trimmed capture of its command line, which is run once |
| Capture.GetCurrentResolution | framework/native_server/rjcoreservice/librjcoreservice/RjcoreServiceProduct.cpp:649-661 | the trimmed capture of its command line, which is run once |
| Capture.CheckIpConflict | framework/native_server/rjcoreservice/librjcoreservice/RjcoreServiceNetwork.cpp:167-195 | the trimmed capture of its command line behind the address and link gates; no command otherwise |
| Capture.Ping | framework/native_server/rjcoreservice/librjcoreservice/RjcoreServiceNetwork.cpp:198-228 | the trimmed capture of its command line, numbers printed, behind the address and parameter gates; no command otherwise |
| Capture.TrimmedNoNul | framework/native_server/rjcoreservice/librjcoreservice/RjcoreServiceNetwork.cpp:84-94 | for NUL-free output the callers return its first 1023 chars less one newline, and the empty string exactly for two outputs |
| LinkModes.GetNetcardMaxSpeed | framework/native_server/rjcoreservice/librjcoreservice/RjcoreServiceNetwork.cpp:97-114 | the command it runs, and the ordered substring tests on the captured text |
| LinkModes.OccursInListing | framework/native_server/rjcoreservice/librjcoreservice/RjcoreServiceNetwork.cpp:103-107 | a keyword occurs in a listing iff it occurs inside one of its words |
| LinkModes.OccursInMode | framework/native_server/rjcoreservice/librjcoreservice/RjcoreServiceNetwork.cpp:103-107 | a keyword occurs in a link mode iff the mode is full duplex and its speed ends in the keyword's digits |
| LinkModes.OtherMediaQualify | framework/native_server/rjcoreservice/librjcoreservice/RjcoreServiceNetwork.cpp:103-107 | a word whose only slash does not follow a T, as the mode of another medium, holds no keyword |
| LinkModes.SpeedGoesByLastDigits | framework/native_server/rjcoreservice/librjcoreservice/RjcoreServiceNetwork.cpp:103-113 | for every listing, which speeds the tests report |
| LinkModes.ListingExample | framework/native_server/rjcoreservice/librjcoreservice/RjcoreServiceNetwork.cpp:103-113 | a listing with 10 half and 100 full duplex is reported as 100 |
| LinkModes.MaxSpeedIsLargestIff | framework/native_server/rjcoreservice/librjcoreservice/RjcoreServiceNetwork.cpp:97-114 | the result is the largest of 1000, 100 and 10 advertised as full duplex iff the speed whose digits are first found is itself advertised |
| LinkModes.Impostor | framework/native_server/rjcoreservice/librjcoreservice/RjcoreServiceNetwork.cpp:103 | a speed of 11000 is reported as 1000 |
| LinkModes.EthernetSpeedsAreSafe | framework/native_server/rjcoreservice/librjcoreservice/RjcoreServiceNetwork.cpp:103-107 | among the speeds Ethernet defines there is no impostor |
| Decimal.SuffixIsEndsWith | framework/native_server/rjcoreservice/librjcoreservice/RjcoreServiceNetwork.cpp:103-107 | one numeral is a suffix of another exactly when the divisions by ten agree |
| OtaFlag.SameUpToIsEquality | framework/native_server/rjcoreservice/librjcoreservice/RjcoreServiceControl.cpp:47 | strncmp with the terminator counted is equality; without it, a prefix test |
| OtaFlag.ScanWord | framework/native_server/rjcoreservice/librjcoreservice/RjcoreServiceControl.cpp:46 | the word that %s stores |
| OtaFlag.GetOtaResult | framework/native_server/rjcoreservice/librjcoreservice/RjcoreServiceControl.cpp:36-51 | the command it runs, and true iff the scanned word compares equal |
| OtaFlag.OtaResultIff | framework/native_server/rjcoreservice/librjcoreservice/RjcoreServiceControl.cpp:46-47 | true iff the text is the prefix, white space and UPDATE_SUCCESS standing alone |
| OtaFlag.OtaResultOfOutput | framework/native_server/rjcoreservice/librjcoreservice/RjcoreServiceControl.cpp:42-47 | the same for every NUL-free output, cut to its first 1023 chars |
| SizeScaling.ScaleExact | framework/native_server/rjcoreservice/librjcoreservice/RjcoreServiceProduct.cpp:285-293 | the value shown is exact to one unit |
| SizeScaling.ScaleMonotone | framework/native_server/rjcoreservice/librjcoreservice/RjcoreServiceProduct.cpp:285-293 | more memory never shows as a smaller quantity |
| SizeScaling.GetMemoryInfo | framework/native_server/rjcoreservice/librjcoreservice/RjcoreServiceProduct.cpp:276-298 | the command it runs; the numeral of the scaled value and its unit letter, empty for empty output |
| SizeScaling.AtoiOfDec | framework/native_server/rjcoreservice/librjcoreservice/RjcoreServiceProduct.cpp:285 | atoi reads back a printed numeral |
| SizeScaling.AtoiOfSigned | framework/native_server/rjcoreservice/librjcoreservice/RjcoreServiceProduct.cpp:285-296 | atoi reads a numeral behind white space and a sign, up to the first char that is no digit |
| SizeScaling.MemoryInfoOfLine | framework/native_server/rjcoreservice/librjcoreservice/RjcoreServiceProduct.cpp:282-297 | from the kernel's line to the answer, with the exact unit boundaries |
| SizeScaling.GetStorageSize | framework/native_server/rjcoreservice/librjcoreservice/RjcoreServiceProduct.cpp:102-135 | the real scaling, and 0K when statfs fails or there are no blocks |
| SizeScaling.MeasuredExact | framework/native_server/rjcoreservice/librjcoreservice/RjcoreServiceProduct.cpp:121-133 | the real scaling loses nothing, and the unit is the smallest in which the size does not exceed 1024, or G |
| SizeScaling.UnitsDifferExactlyWhen | framework/native_server/rjcoreservice/librjcoreservice/RjcoreServiceProduct.cpp:124-133 | the integer and real scalings differ in unit exactly for 1024*1024 < kb < 1025*1024 |
| ProductId.JoinBytes | framework/native_server/rjcoreservice/librjcoreservice/RjcoreService.cpp:209-211 | the shift-or loop with promoted chars, for each ABI |
| ProductId.JoinedRightIff | framework/native_server/rjcoreservice/librjcoreservice/RjcoreService.cpp:209-211 | for each char signedness and long width, exactly which byte patterns are joined right |
| ProductId.JoinsRightMeans | framework/native_server/rjcoreservice/librjcoreservice/RjcoreService.cpp:209-211 | the patterns in words: no negative value widens, and a negative char has only ones before it |
| ProductId.PrintHexRoundTrip | framework/native_server/rjcoreservice/librjcoreservice/RjcoreService.cpp:213 | printing any 64-bit value with %08lx can be parsed back |
| ProductId.PrintHexForm | framework/native_server/rjcoreservice/librjcoreservice/RjcoreService.cpp:213 | what is printed is lower-case hex of at least eight digits, without a leading zero beyond that |
| ProductId.IdStringIff | framework/native_server/rjcoreservice/librjcoreservice/RjcoreService.cpp:209-214 | the id string is the eight digits of the bytes, and decodes to them, iff the loop joined them right |
| ProductId.EightDigitsAre | framework/native_server/rjcoreservice/librjcoreservice/RjcoreService.cpp:209-214 | the eight digits, char by char, as numbers |
| ProductId.IdStringIs | framework/native_server/rjcoreservice/librjcoreservice/RjcoreService.cpp:209-214 | the id string of bytes that are joined right, char by char |
| ProductId.BytesFromValue | framework/native_server/rjcoreservice/librjcoreservice/RjcoreService.cpp:209-214 | the joined value determines the four bytes |
| NandRecord.NandFile.Fread | framework/native_server/rjcoreservice/librjcoreservice/RjcoreService.cpp:48 | a read that gets all it asked for moves exactly those bytes |
| NandRecord.ReadNand | framework/native_server/rjcoreservice/librjcoreservice/RjcoreService.cpp:38-67 | when it succeeds, and the memory it leaves |
| NandRecord.FieldTextIs | framework/native_server/rjcoreservice/librjcoreservice/RjcoreService.cpp:48-64 | the C string a field leaves in zeroed memory, header bytes included |
| NandRecord.FieldsRead | framework/native_server/rjcoreservice/librjcoreservice/RjcoreService.cpp:159-219 | what is read of each stored field depends on that field alone |
| NandRecord.ParsingUndoesLayout | framework/native_server/rjcoreservice/librjcoreservice/RjcoreService.cpp:159-219 | parsing returns the stored fields; the serial number iff it is not one byte long or the second header byte is 0; the id iff the ABI joins its bytes right |
| NandRecord.FieldsAreIndependent | framework/native_server/rjcoreservice/librjcoreservice/RjcoreService.cpp:176-214 | rewriting one stored field never affects what is read of another |
| NandRecord.LayoutExists | framework/native_server/rjcoreservice/librjcoreservice/RjcoreService.cpp:176-203 | fields of every admissible length can be stored |
| RjcoreService.Service.constructor | framework/native_server/rjcoreservice/librjcoreservice/RjcoreService.cpp:103-128 | the object after start-up, for every image |
| RjcoreService.Service.GetNandStoreInfo | framework/native_server/rjcoreservice/librjcoreservice/RjcoreService.cpp:159-219 | the fields saved before each exit |
| RjcoreService.Service.GetSerialNumber | framework/native_server/rjcoreservice/librjcoreservice/RjcoreServiceProduct.cpp:219-224 | for every image the service was started on: the serial number parsed from it when all four reads succeeded, and the empty string otherwise |
| RjcoreService.Service.GetProductType | framework/native_server/rjcoreservice/librjcoreservice/RjcoreServiceProduct.cpp:226-231 | for every image the service was started on: the product type parsed from it when all four reads succeeded, and the empty string otherwise |
| RjcoreService.Service.GetHardwareVersion | framework/native_server/rjcoreservice/librjcoreservice/RjcoreServiceProduct.cpp:233-238 | for every image the service was started on: the hardware version parsed from it when all four reads succeeded, and the empty string otherwise |
| RjcoreService.Service.GetProductId | framework/native_server/rjcoreservice/librjcoreservice/RjcoreServiceProduct.cpp:240-245 | for every image the service was started on: the product id parsed from it when all four reads succeeded, char by char the hex digits of bytes 58..61 when the ABI joins them right, and the empty string otherwise |
| RjcoreService.Service.SetPowerState | framework/native_server/rjcoreservice/librjcoreservice/RjcoreServiceProduct.cpp:309-331 | it issues the mode it was given iff that is 0 or 1 and the type is none of the four excluded ones |
| RjcoreService.Service.GetPowerState | framework/native_server/rjcoreservice/librjcoreservice/RjcoreServiceProduct.cpp:333-349 | it issues mode 2 iff the type is none of the four excluded ones, and returns the first digit of the answer, for either char signedness |
| RjcoreService.Service.GetLedStatus | framework/native_server/rjcoreservice/librjcoreservice/RjcoreServiceProduct.cpp:524-545 | it issues the colour it was given iff that is in range and the type is the Rain200S, and returns the first digit of the answer, for either char signedness |
| RjcoreService.Service.SetLedStatus | framework/native_server/rjcoreservice/librjcoreservice/RjcoreServiceProduct.cpp:547-571 | it issues the colour and state it was given iff both are in range and the type is the Rain200S |
| RjcoreService.SavedFieldsArePrefix | framework/native_server/rjcoreservice/librjcoreservice/RjcoreService.cpp:114-128 | initialised iff all four reads succeeded; the saved fields are a prefix of the read order and the rest is empty |
| RjcoreService.TruncationOnlyLoses | framework/native_server/rjcoreservice/librjcoreservice/RjcoreService.cpp:159-219 | cutting an image never makes a further read succeed nor changes what is still read |
| RjcoreService.GatesHold | framework/native_server/rjcoreservice/librjcoreservice/RjcoreServiceProduct.cpp:309-349 | over every image and call sequence each LED command is in range and for the Rain200S, each power command for a type outside the excluded list |
| RjcoreService.GatedByInitIff | framework/native_server/rjcoreservice/librjcoreservice/RjcoreServiceProduct.cpp:309-571 | for every image: no request and no sequence of requests makes an uninitialised object issue a command iff the object did initialise or its product type is on the excluded list |
| RjcoreService.CommandsWithoutInit | framework/native_server/rjcoreservice/librjcoreservice/RjcoreServiceProduct.cpp:561-567 | an object started on an image cut off after the type answers every getter with the empty string and still drives the LED |
| RjcoreService.StoredIdentityIsServed | framework/native_server/rjcoreservice/librjcoreservice/RjcoreServiceProduct.cpp:219-245 | the getters return what the image stores: type and version always, the serial number and the id under the parser's exact conditions |
| SigChild.Process.MySystem | framework/native_server/rjcoreservice/librjcoreservice/RjcoreService.cpp:130-157 | one call runs its command under SIG_DFL and restores the disposition |
| SigChild.OnlyTwoHandlers | framework/native_server/rjcoreservice/librjcoreservice/RjcoreService.cpp:138-140 | in every interleaving the disposition and all saved handlers are the original or SIG_DFL |
| SigChild.PromiseIffFirstEndsLast | framework/native_server/rjcoreservice/librjcoreservice/RjcoreService.cpp:138-140 | commands run under SIG_DFL and the original is back when nothing runs, in every state, iff the first call of each busy period ends last |
| SigChild.NonOverlappingKeepsPromise | framework/native_server/rjcoreservice/librjcoreservice/RjcoreService.cpp:138-140 | calls that never overlap keep the promise |
| SigChild.OverlapLosesHandler | framework/native_server/rjcoreservice/librjcoreservice/RjcoreService.cpp:138-140 | two overlapping calls can run a command under the original handler and lose it for good |
| Resolutions.SupportIndexIff | framework/native_server/rjcoreservice/librjcoreservice/RjcoreServiceProduct.cpp:686-688 | the two bytes give their little-endian low ten bits iff chars are unsigned or the top bit of the first byte does no harm |
| Resolutions.FileBit | framework/native_server/rjcoreservice/librjcoreservice/RjcoreServiceProduct.cpp:686-692 | which bits of the two bytes the test 1 << i finds, for either char signedness |
| Resolutions.PrintMask | framework/native_server/rjcoreservice/librjcoreservice/RjcoreServiceProduct.cpp:690-701 | the loop and the comma removal print the list of set bits from 1 up |
| Resolutions.GetSupportResolution | framework/native_server/rjcoreservice/librjcoreservice/RjcoreServiceProduct.cpp:663-705 | empty when the file is missing or short; otherwise the list of the indices 1 to 9 whose bit, in the two bytes of the file, is set |
| Resolutions.AppendedIsList | framework/native_server/rjcoreservice/librjcoreservice/RjcoreServiceProduct.cpp:690-701 | the appended text is the comma-joined list and one comma too many |
| Resolutions.SetFromAscends | framework/native_server/rjcoreservice/librjcoreservice/RjcoreServiceProduct.cpp:690-697 | the selected indices are in strictly ascending order |
| Resolutions.PrintedListRoundTrip | framework/native_server/rjcoreservice/librjcoreservice/RjcoreServiceProduct.cpp:690-704 | for any plain table the list reads back as the set bits from 1 up and determines the mask but for bit 0 |
| Resolutions.ShippedListRoundTrip | framework/native_server/rjcoreservice/librjcoreservice/RjcoreServiceProduct.cpp:72-83 | for the shipped table the printed list reads back as the bits set from 1 up, and two masks print alike iff they agree on those bits |
| Resolutions.FullListText | framework/native_server/rjcoreservice/librjcoreservice/RjcoreServiceProduct.cpp:72-83 | with all bits set, the printed list entry by entry |
| Resolutions.TextFits | framework/native_server/rjcoreservice/librjcoreservice/RjcoreServiceProduct.cpp:72-83 | no selection of the table outgrows the buffer |
| ClientSession.ProgramSector | framework/native_server/rjcoreservice/librjcoreservice/RjcoreServiceProduct.cpp:573-647 | a client program's effect on the sector is that of its resolution calls |
| ClientSession.ProgramIssued | framework/native_server/rjcoreservice/librjcoreservice/RjcoreServiceProduct.cpp:309-571 | the commands a client program issues are those its calls get past the gates |
| ClientSession.Session | framework/native_server/rjcoreservice/tests/rjcoreserver_tests.cpp:112-146 | any program through Binder on any image and sector: every result is that of the image and the outside, unchanged for the calls not modelled; the sector refines the abstract record, keeps its other bytes and its range; the commands issued are, in order, one for each admitted call with its own numbers |
| ClientSession.StoredIdentityReachesClient | framework/native_server/rjcoreservice/tests/rjcoreserver_tests.cpp:48-186 | through Binder a client gets back the stored fields: type and version always, the serial number and the id under the parser's exact conditions |
| ClientSession.ServeOn | framework/native_server/rjcoreservice/librjcoreservice/RjcoreServiceProduct.cpp:219-647 | one call dispatched to the service and device objects has the answer and the effect that the session gives it |
| ClientSession.ServeProgram | framework/native_server/rjcoreservice/librjcoreservice/RjcoreServiceProduct.cpp:219-647 | a program run on those objects from start-up has the results, the sector and the commands of the session |

## Left out

- OnTransact: an unlisted code ends as UNKNOWN_TRANSACTION; that the base class `BBinder` answers codes of its own (such as INTERFACE_TRANSACTION, with the descriptor) is not modelled.
- AnyReadOrderIff: what a read of the wrong kind yields, the zero value, is the model's choice for libbinder; it matters only for `ping_block`, and there AddressFirstIff does without it.
- ReadNand: a negative length byte (signed chars only) is a failed read; that the huge `fread` it asks for can overrun the buffer is not modelled.
- MemoryInfoOfLine: stops at INT_MAX kilobytes, beyond which `atoi` is undefined.
- ScaleExact: integers are unbounded, because a `MemTotal` beyond 32 bits is undefined behaviour in `atoi` and not in the scaling.
- GetStorageSize: the long double is exact, and the printing with "%-4.1Lf" is not modelled.
- Fgets: covers both behaviours of C libraries when there is room for the NUL alone.
- The rknand kernel driver: each ioctl is atomic, a failed one changes nothing, and data bytes 504..511 are not modelled.
- The byte layout of a Parcel, the death of the remote process in the middle of a call, and the threads of libbinder.
- UTF-8 to UTF-16 conversion in `String16`.
- Undefined behaviour of signed overflow in C: the driver's sum wraps, as on the targets.
- `getCpuInfo`, `litConverBig`, the property getters, `getNetcardState`, `isProcessRunning`, `getProcessId`, `killByProcessName`: easy, or determined by foreign data.
- `collectLogFiles_block`, `chmodFile`, `chmodDir`, `rmFile`, `checkBandwidth_block`, `startAvahi`, `stopAvahi`: sequences of shell commands whose results depend on the file system.
- The LED HAL stubs, the JNI registrations, the Java classes and the `cdata` modules: thin wrappers.
- Kernel, device-tree, init and build configuration.
