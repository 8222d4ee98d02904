# tinyproxy: reverse-proxy routing and socket establishment

A Dafny model of two parts of tinyproxy, with proofs about the model.

- **Reverse-proxy routing** (`src/reverse-proxy.c`):
  - `reversepath_add` validates a rule and prepends it to the process-wide rule list.
  - `reversepath_get` returns the first rule whose path is a prefix of a request URL.
  - `reverse_rewrite_url` turns a relative request URL into a backend URL. It tries a direct prefix match first, then the "magical tracking cookie". It refuses the request in reverse-only mode, and records the winning rule's path on the connection.
- **Socket establishment** (`src/sock.c`):
  - `bind_socket` binds a socket to the first resolved local address that accepts it.
  - `opensock` tries the resolved remote candidates in order: create, optionally bind, connect, and close on failure.
  - `socket_nonblocking` and `socket_blocking` set or clear `O_NONBLOCK` with `fcntl`.

Files:

- `wrappers.dfy`: `Option`.
- `strings.dfy`: `Find`, the model of `strstr`.
- `reverse_proxy.dfy`: the rule registry as a `Registry` object, the connection's routing state as a `Conn` object, and the rewrite decision as the function `Rewrite`. The imperative `RewriteUrl` is proved against `Rewrite`.
- `sock.dfy`: the operating system as an `Os` object. It holds the open descriptors, their status flags, and logs of the `socket`, `bind` and `connect` calls. Name resolution and the outcome of each system call are inputs:
  - a `Resolution` is the `getaddrinfo` list, in order;
  - an `Oracle` is indexed by the candidate's position and the local address's position.

The rule list is a sequence whose index 0 is the head of the linked list. A pointer into the list is an index into that sequence.

The code strips exactly the matched prefix and concatenates, with no normalisation. So rule `/x -> http://b/` rewrites `/x/y` to `http://b//y`, while rule `/x/ -> http://b/` rewrites it to `http://b/y` (`PrefixStripExample`).

REVERSE_COOKIE is defined in `src/reverse-proxy.h`, which is not part of this model. The model uses tinyproxy's value, `yummy_magical_cookie`.

## Model

| member | source | states |
|---|---|---|
| Strings.Find | src/reverse-proxy.c:85 | the result is the first position where the pattern occurs, and None exactly when it occurs nowhere (`strstr`) |
| Strings.FoundAtStartIffPrefix | src/reverse-proxy.c:85 | `strstr(url, path) == url` holds exactly when `path` is a prefix of `url` |
| ReverseProxy.FirstMatch | src/reverse-proxy.c:80-92 | the index of a matching rule with no matching rule before it, and None exactly when no rule matches |
| ReverseProxy.Registry.Add | src/reverse-proxy.c:32-75 | the status is the first failed check (missing url, no "://", path without leading '/'), the new list is `Register` of the old one, and every stored rule stays well formed |
| ReverseProxy.Registry.Get | src/reverse-proxy.c:80-92 | the loop returns the first rule, from the head, whose path prefixes the URL, or None exactly when none does |
| ReverseProxy.Validate | src/reverse-proxy.c:36-54 | the status names the first failing check in source order: missing url, then a url without "://", then a path not starting with '/' |
| ReverseProxy.Register | src/reverse-proxy.c:62-70 | the list grows by exactly one rule when the checks pass and is unchanged otherwise, and the old list is kept as its tail |
| ReverseProxy.RegisterRejects | src/reverse-proxy.c:36-54 | each of the three rejections leaves the list unchanged |
| ReverseProxy.RegisterPrepends | src/reverse-proxy.c:36-70 | a rule is accepted exactly when all three checks pass, and then exactly one rule is prepended (path defaults to "/", url verbatim) with the rest unchanged |
| ReverseProxy.RegisterKeepsWellFormed | src/reverse-proxy.c:36-70 | registration preserves the invariant that every rule path starts with '/' and every rule url contains "://" |
| ReverseProxy.NewestRuleFirst | src/reverse-proxy.c:69-89 | the newest rule wins for every URL its path prefixes; other URLs find what they found before, one place further down |
| ReverseProxy.ShadowingExample | src/reverse-proxy.c:69-89 | `/ab` registered after `/a` is the rule chosen for `/ab/c` |
| ReverseProxy.CookieKey | src/reverse-proxy.c:121-125 | a key exists exactly when `yummy_magical_cookie=` occurs in the header; the key is a suffix of the header with room for the cookie name and '=' before it |
| ReverseProxy.CookieKeyIsAfterFirstOccurrence | src/reverse-proxy.c:121-125 | the cookie key exists exactly when `yummy_magical_cookie=` occurs in the header, and is the text after its first occurrence |
| ReverseProxy.Rewrite | src/reverse-proxy.c:97-148 | refused exactly in reverse-only mode with nothing rewritten; rewritten exactly when a rule matched; a match needs a leading '/' and its rule is in the list; the result starts with the rule's url and is at most the length the source allocates |
| ReverseProxy.RewrittenIsAbsolute | src/reverse-proxy.c:106-131 | when every stored rule is well formed, as `Registry.Add` keeps it, every rewritten URL contains "://": rewriting always yields an absolute backend URL |
| ReverseProxy.DirectMatchRewrite | src/reverse-proxy.c:106-114 | for the first matching rule, the result is the rule's url followed by the URL minus the whole matched prefix |
| ReverseProxy.CookieFallbackRewrite | src/reverse-proxy.c:115-131 | with no direct match and reversemagic on, the first rule matching the cookie key gives its url followed by the URL minus its first byte |
| ReverseProxy.CookieOnlyAsFallback | src/reverse-proxy.c:115-137 | without a direct match, a rewrite needs reversemagic, a cookie header and a cookie key, uses the first rule whose path prefixes that key and strips one byte of the URL; a key no rule prefixes, a missing cookie header or reversemagic off gives no rewrite |
| ReverseProxy.RelativeOnly | src/reverse-proxy.c:105-138 | a URL not starting with '/' is never rewritten; it is refused exactly in reverse-only mode |
| ReverseProxy.RefuseOrPassThrough | src/reverse-proxy.c:140-148 | when nothing is rewritten, the request is refused in reverse-only mode and passes through otherwise |
| ReverseProxy.PrefixStripExample | src/reverse-proxy.c:110-114 | `/x -> http://b/` rewrites `/x/y` to `http://b//y`; `/x/ -> http://b/` rewrites it to `http://b/y` |
| ReverseProxy.ReverseOnlyEmptyExample | src/reverse-proxy.c:141-148 | in reverse-only mode with no rules, every request is refused |
| ReverseProxy.CookieExample | src/reverse-proxy.c:115-131 | a cookie naming `/x` reaches rule `/x -> http://b/` for a path that does not match `/x` directly |
| ReverseProxy.StoreAsWritten | src/reverse-proxy.c:152-154 | the source's store: nothing when refused or reversemagic is off, the matched path after a match, and an undefined read (NULL or uninitialised `reverse`) exactly when reversemagic is on, the request was not refused and nothing matched |
| ReverseProxy.StoreGuarded | src/reverse-proxy.c:152-154 | the stored path is never undefined; it is saved exactly when reversemagic is on, the request was not refused and a rule matched; it is the matched path; it agrees with the source wherever the source is defined |
| ReverseProxy.AsWrittenDereferencesNull | src/reverse-proxy.c:152-154 | the source's store reads a NULL rule when reversemagic is on, reverse-only mode is off and nothing matches |
| ReverseProxy.GuardedStoreRecordsWinner | src/reverse-proxy.c:152-154 | with reversemagic on, a rewritten request saves exactly the winning rule's path and any other request leaves it as it was |
| ReverseProxy.RewriteUrl | src/reverse-proxy.c:97-157 | returns `Rewrite`'s rewritten URL; appends the 400 "Bad Request" error with the URL exactly when the request is refused; updates the connection's reverse path as `StoreGuarded` says |
| Sock.WithNonblock | src/sock.c:144-145 | O_NONBLOCK is set and every other flag bit is kept |
| Sock.WithoutNonblock | src/sock.c:157-158 | O_NONBLOCK is clear and every other flag bit is kept |
| Sock.SocketNonblocking | src/sock.c:138-146 | on an open socket, returns 0 and its flags gain O_NONBLOCK with nothing else changed; on a closed one, returns -1 and changes nothing |
| Sock.SocketBlocking | src/sock.c:151-159 | on an open socket, returns 0 and its flags lose O_NONBLOCK with nothing else changed; on a closed one, returns -1 and changes nothing |
| Sock.NonblockingThenBlocking | src/sock.c:138-159 | setting then clearing O_NONBLOCK keeps every other bit, and restores the flags when the bit was clear |
| Sock.BlockingThenNonblocking | src/sock.c:138-159 | clearing then setting O_NONBLOCK restores the flags when the bit was set |
| Sock.FirstTrue | src/sock.c:59-62 | the index of the first success, with every earlier attempt failed, or the count when none succeeds |
| Sock.BindSocket | src/sock.c:41-69 | returns the socket exactly when resolution succeeds and some resolved address binds, else -1; binds the addresses in order up to and including the first success |
| Sock.BindTraceInOrder | src/sock.c:59-62 | when address k is the first that binds, exactly the first k+1 addresses are tried, in order |
| Sock.BindAddress | src/sock.c:106-116 | `bind_to` when given, else the configured bind address; none exactly when neither is set |
| Sock.BindAndConnect | src/sock.c:105-119 | `bind_to` takes precedence over the configured bind address; with neither, no bind is made; otherwise the binds are those of `bind_socket`; after a failed bind, `connect` is not called; the socket ends up connected exactly when it binds (or no bind address is given) and `connect` succeeds |
| Sock.TryCandidate | src/sock.c:99-122 | one `socket` call per candidate; the candidate yields a descriptor exactly when socket, bind and connect all succeed; otherwise nothing stays open; the flags of descriptors already open are unchanged |
| Sock.OpenSock | src/sock.c:76-133 | returns a descriptor exactly when resolution succeeds and some candidate succeeds; it is the first successful candidate's new, connected descriptor; only the candidates up to it are tried; on failure every candidate is tried and nothing is left open; the flags of descriptors already open are unchanged |

## Left out

- `listen_sock`, `getsock_ip` and `getpeer_information` in `src/sock.c` are not modelled. They only format addresses or set up the listening socket and do not feed the routing or connection logic modelled here.
- `getaddrinfo` is an input (a `Resolution`), so `Sock.OpenSock` takes the resolved candidates rather than `host` and `port`. The port string built with `snprintf` and the `host != NULL` / `port > 0` assertions are dropped with them.
- Logging (`log_message`) is not modelled.
- `Sock.CandidateOk` gives every candidate the same resolution of the bind address (`resolve` is a function of the address). `bind_socket` calls `getaddrinfo` once per candidate (src/sock.c:53), which could answer differently each time. No property here depends on this.
- `freeaddrinfo` is not modelled, because memory is not modelled.
- Allocation failure is not modelled, because memory exhaustion is not modelled. In the source, only the rule allocation in `reversepath_add` (src/reverse-proxy.c:56-60) is checked: it logs and returns. The other allocations are used unchecked: the `safestrdup` results at lines 63-67 and 154 are stored as they are, and the `safemalloc` results at lines 110-112 and 127-129 go straight to `strcpy`.
- The `cookie` header lookup in the header map is an input: `Some(value)` means the header is present.
- The `do { … } while` loops are modelled as `while` loops. They agree because `getaddrinfo` returns a non-empty list when it succeeds.
- `F_SETFL` is modelled as storing the flag word. The kernel ignores access-mode bits in `F_SETFL`, and the model does not capture that.
- `O_NONBLOCK` is Linux's value, 0x800. A fresh socket's flags are `O_RDWR`.
- Descriptor numbers: a successful `socket` returns a fresh number, the next in a counter. The kernel's lowest-free-number policy is not modelled.
- C strings are modelled as `seq<char>` with no terminating NUL, and byte-wise comparison is the same as sequence comparison. The model does not keep '\0' out of its strings: a C string ends at its first NUL, so for a URL, path or cookie containing '\0', `Strings.Find` and `ReverseProxy.Matches` see characters that `strstr` does not. The model's results agree with the source only for NUL-free inputs.
- Sock.OpenSock: it does not state the bind calls made for each candidate; `Sock.BindSocket` states them for one socket.
- ReverseProxy.RewriteUrl: it follows the corrected store (`StoreGuarded`), not the unguarded store of the source (see Findings).

## Findings

| source | as written | input that shows it | evidently intended | confidence | as-written member | corrected member |
|---|---|---|---|---|---|---|
| src/reverse-proxy.c:152-154 | `if (config.reversemagic) connptr->reversepath = safestrdup (reverse->path);` runs whenever reversemagic is on and the request was not refused, including when no rule matched; then `reverse` is NULL, or uninitialised for a URL not starting with '/' | reversemagic on, reverse-only off, no rules, no cookie header, URL `/x` | store the path only when a rule matched in this call | high, not executed | ReverseProxy.AsWrittenDereferencesNull | ReverseProxy.StoreGuarded |
