# kotlin-nio core, modelled in Dafny

kotlin-nio is a set of Kotlin extensions over `java.nio.file`. Almost all of it
forwards to `java.nio.file.Files`. This project models the four pieces that
hold logic of their own and proves what they promise:

- **File-name extension splitting** (`Path.extension`, `Path.nameWithoutExtension`),
  module `FileNames` in `file_name.dfy`. Both are written with Kotlin
  standard-library calls (`substringAfterLast('.', "")`, `substringBeforeLast(".")`,
  and the `lastIndexOf` searches under them). The model includes those calls too.
  A name is the string form of `Path.fileName`.
- **The block-reading loop** (`Path.forEachBlock`, both overloads), module
  `BlockReader` in `block_reader.dfy`. The input stream is the sequence of
  counts its successive `read(buffer)` calls return. A read past the end of that
  sequence returns -1, which is how a stream that has reached its end behaves.
  The method allocates the buffer and records every `action(buffer, bytesRead)`
  call as a `Block`.
- **The default visitor** (`AbstractFileVisitor`), module `FileVisitors` in
  `file_visitor.dfy`. A thrown `IOException` is a `Result.Err`. A nullable
  exception argument is an `Option`.
- **The `deleteRecursively` visitor**, module `DeleteRecursively` in
  `delete_recursively.dfy`. The file system is a class holding the set of
  existing paths. The visitor is a class whose overrides delete through it.
  Whether the library `delete` fails, and with which exception, is an opaque
  function of the existing paths and the path being deleted.
- **`ByteOrder.reverse`**, module `ByteOrders` in `byte_order.dfy`.

`results.dfy` holds the `Option` and `Result` types shared by the modules.

Kotlin `Int` and `Byte` are the newtypes `BlockReader.int32` and `BlockReader.byte`.
No arithmetic in the modelled code can overflow them.

## Model

| member | source | states |
|---|---|---|
| `FileNames.LastIndexOfChar` | jdk7/src/main/kotlin/org/glavo/nio/file/Path.kt:101 | `lastIndexOf(Char)` as `substringAfterLast` uses it. The result is -1 exactly when the character is absent. Otherwise it is an index holding the character, and no later index holds it. |
| `FileNames.LastOccurrenceFrom` | jdk7/src/main/kotlin/org/glavo/nio/file/Path.kt:104 | The backward search under `lastIndexOf(String)`. The result is -1, or a start index at or before `k` where the delimiter occurs. No occurrence starts between the result and `k`. |
| `FileNames.LastIndexOfString` | jdk7/src/main/kotlin/org/glavo/nio/file/Path.kt:104 | `lastIndexOf(String)` as `substringBeforeLast` uses it. The result is -1 or an occurrence of the delimiter, and no occurrence starts later in the string. |
| `FileNames.LastIndexOfSingleCharString` | jdk7/src/main/kotlin/org/glavo/nio/file/Path.kt:101-104 | Searching for the string "." finds the same index as searching for the character '.'. So both properties split at the same dot. |
| `FileNames.SubstringAfterLast` | jdk7/src/main/kotlin/org/glavo/nio/file/Path.kt:101 | Without the delimiter the result is the fallback value. With it, the result has no delimiter in it and is what follows the last delimiter. |
| `FileNames.SubstringBeforeLast` | jdk7/src/main/kotlin/org/glavo/nio/file/Path.kt:104 | Without an occurrence of the delimiter the result is the fallback value. Otherwise the result is the prefix of the string that ends where the last occurrence of the delimiter starts. |
| `FileNames.Extension` | jdk7/src/main/kotlin/org/glavo/nio/file/Path.kt:100-101 | An extension never contains '.'. A name without '.' has the extension "". A name with '.' consists of some prefix, then '.', then the extension. |
| `FileNames.NameWithoutExtension` | jdk7/src/main/kotlin/org/glavo/nio/file/Path.kt:103-104 | A name without '.' is returned whole. Otherwise the result is the name's prefix up to a '.' that is followed by no other '.', so the split is at the last dot. |
| `FileNames.SplitRejoin` | jdk7/src/main/kotlin/org/glavo/nio/file/Path.kt:100-104 | For a name containing '.': `nameWithoutExtension + "." + extension == name`. |
| `FileNames.JoinSplit` | jdk7/src/main/kotlin/org/glavo/nio/file/Path.kt:100-104 | The inverse round trip. `base + "." + ext` with a dot-free `ext` splits back into exactly `base` and `ext`. |
| `BlockReader.CoerceAtLeast` | jdk7/src/main/kotlin/org/glavo/nio/file/Path.kt:190 | `coerceAtLeast`: the result is the larger of the value and the minimum. |
| `BlockReader.Delivered` | jdk7/src/main/kotlin/org/glavo/nio/file/Path.kt:193-200 | Reference definition of what `action` receives. It is a prefix of the reads in read order, and every count in it is positive. The read right after it returns 0 or less. |
| `BlockReader.DeliveredIsPrefix` | jdk7/src/main/kotlin/org/glavo/nio/file/Path.kt:193-200 | Take any run of positive reads that ends at a read of 0 or less. That run is exactly what `Delivered` picks out. |
| `BlockReader.DeliveredIgnoresLaterReads` | jdk7/src/main/kotlin/org/glavo/nio/file/Path.kt:193-200 | Reads after the one that stopped the loop have no effect on what `action` receives. |
| `BlockReader.ForEachBlock` | jdk7/src/main/kotlin/org/glavo/nio/file/Path.kt:189-202 | The buffer is newly allocated and its length is `max(blockSize, 512)`, where 512 is the minimum block size set at line 18. `action` runs once per delivered read, in order, always with the same buffer and with `bytesRead` equal to that read's count. Exactly one more read is consumed, the one that ended the loop. |
| `BlockReader.ForEachBlockDefault` | jdk7/src/main/kotlin/org/glavo/nio/file/Path.kt:187 | The same loop with a 4096-byte buffer, the default block size set at line 16. |
| `FileVisitors.PreVisitDirectory` | jdk7/src/main/kotlin/org/glavo/nio/file/FileVisitor.kt:9 | Always returns CONTINUE, for any directory and attributes. |
| `FileVisitors.PostVisitDirectory` | jdk7/src/main/kotlin/org/glavo/nio/file/FileVisitor.kt:11-12 | Returns a value exactly when no exception was passed, and that value is CONTINUE. Otherwise it throws exactly the exception passed. |
| `FileVisitors.VisitFile` | jdk7/src/main/kotlin/org/glavo/nio/file/FileVisitor.kt:14 | Always returns CONTINUE. |
| `FileVisitors.VisitFileFailed` | jdk7/src/main/kotlin/org/glavo/nio/file/FileVisitor.kt:16 | Never returns. It always throws the exception it was given. |
| `FileVisitors.DefaultsOnlyContinue` | jdk7/src/main/kotlin/org/glavo/nio/file/FileVisitor.kt:8-17 | No default callback returns TERMINATE, SKIP_SUBTREE or SKIP_SIBLINGS. |
| `DeleteRecursively.FileSystem.Delete` | jdk7/src/main/kotlin/org/glavo/nio/file/Path.kt:52 | `Path.delete()`. It either removes exactly `p`, or throws the library's exception and changes nothing. |
| `DeleteRecursively.DeleteVisitor.PreVisitDirectory` | jdk7/src/main/kotlin/org/glavo/nio/file/FileVisitor.kt:9 | Inherited default in the delete visitor. It returns CONTINUE and deletes nothing. |
| `DeleteRecursively.DeleteVisitor.PostVisitDirectory` | jdk7/src/main/kotlin/org/glavo/nio/file/Path.kt:58-63 | If an exception is passed, it is rethrown and nothing is deleted. Otherwise exactly `dir` is removed and the result is CONTINUE. If the delete fails, its exception propagates and nothing changes. |
| `DeleteRecursively.DeleteVisitor.VisitFile` | jdk7/src/main/kotlin/org/glavo/nio/file/Path.kt:65-68 | Exactly the visited file is removed, nothing else changes, and the result is CONTINUE. If the delete fails, its exception propagates and nothing changes. |
| `DeleteRecursively.DeleteVisitor.VisitFileFailed` | jdk7/src/main/kotlin/org/glavo/nio/file/FileVisitor.kt:16 | Inherited default in the delete visitor. It rethrows the exception. |
| `ByteOrders.Reverse` | core/src/main/kotlin/org/glavo/nio/ByteOrder.kt:8-14 | A value is returned exactly for the two known orders, and it is the other known order. So BIG_ENDIAN gives LITTLE_ENDIAN, LITTLE_ENDIAN gives BIG_ENDIAN, and no order maps to itself. Any other value throws `IllegalArgumentException("unknown byte order")`. |
| `ByteOrders.ReverseInvolution` | core/src/main/kotlin/org/glavo/nio/ByteOrder.kt:10-11 | Reversing a known order twice gives it back. |

## Left out

- `Files.walkFileTree`, the JDK's traversal driver. The model covers only the callbacks it invokes. It says nothing about traversal order, or about the state the whole `deleteRecursively` leaves a tree in.
- The reasons `Files.delete` fails (missing file, non-empty directory, permissions) are JDK behaviour. They are folded into the opaque `FileSystem.refusal` function.
- File names are sequences of Unicode code points, not of UTF-16 code units. So an index returned by `LastIndexOfChar`, `LastIndexOfString` or `LastOccurrenceFrom` can differ from Kotlin's for names with characters outside the Basic Multilingual Plane. The strings `Extension` and `NameWithoutExtension` return are the same, because '.' never occurs inside a surrogate pair.
- `Path.fileName` and what it returns for a root path. Extension splitting is modelled on a given name string.
- `forEachBlock`: opening and closing the stream (`Files.newInputStream`, `use`) is left out. So are the bytes a read stores in the buffer, and exceptions thrown by `read` or by `action`. The model keeps only the counts `read` returns.
- `forEachBlock`: streams that never reach end of stream, on which the loop never returns, are not modelled. Every modelled stream is a finite list of counts followed by -1.
- `BlockReader.ForEachBlock`: read counts are not bounded by the buffer length, or below by -1. The model accepts any `Int` a stream might report, unlike `InputStream.read`, which returns between -1 and the buffer length.
- `ByteOrders.ByteOrder.Unknown` exists only to model the `else` arm of `reverse`. The JDK itself has just the two orders.
- Path join (`div`), `parent`/`resolve`, and the `FileSystem` root helpers. These only forward to `java.nio.file.Path`.
- Every create, delete, copy, move, read, write, append, stream, reader, writer and channel helper, and every metadata property. Each is a one-line forward to `Files` that does real I/O. The exception is `delete`, which is modelled abstractly by `FileSystem.Delete`.
- Charset encoding and decoding (`readText`, `writeText`, `appendText`, `readLines`, `useLines`, `forEachLine`). Their behaviour comes from library code.
- The JDK 8 stream wrappers (`walk`, `lines`, `find`) and the `OpenOptions` constant aliases. Neither has logic of its own.
- `Path.f()`, an empty function.
