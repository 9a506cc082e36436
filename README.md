# Session-authentication helper: a Dafny model

This project models the `Auth` helper of the session-authentication API
(`0x02-Session_authentication/api/v1/auth/auth.py`). Its one piece of real logic is
`require_auth`, the gate that decides whether a request path needs authentication given an
optional list of exclusion entries. The gate lets a path through (answers "no
authentication") when the path is listed exactly, or when some entry extends the path, the
path extends some entry, or some entry ends in `*` and the path extends what precedes the
`*`. Beside it sit three accessors: the `Authorization` header, the session cookie named by
the `SESSION_NAME` setting, and a `current_user` placeholder.

`Auth` has no fields and changes nothing, so the model is pure: module `Auth` (`auth.dfy`)
holds one function per method of the class and the lemmas about them. It also holds `Exempts` and `WildcardCovers`, the reference definitions the contracts are stated against, and the helpers `EntryMatches`, `FirstExempting` and `Index`, which carry the proofs. `Prefixes`
(`prefixes.dfy`) holds Python's `startswith` and an independent "agree on the common length"
definition of comparability. `Wrappers` (`wrappers.dfy`) holds `Option`, which stands for
Python's `None`.

The `for` loop of `require_auth` is `FirstExempting`. It is a recursive scan that returns the
index of the entry at which the loop returns `False`, so the in-order early return is kept.
`Exempts(entry, path)` is the reference meaning of a match. It says that the two strings agree
on their common length, or that the entry is a wildcard whose stem starts the path. Every
property of the gate is stated against `Exempts`.

Inputs from outside become parameters. The request is a value holding two
`map<string, string>`s, for headers and for cookies. The `SESSION_NAME` setting is an
`Option<string>` argument. The user type of `current_user` is a type parameter.

## Model

| member | source | states |
|---|---|---|
| `Auth.RequireAuth` | 0x02-Session_authentication/api/v1/auth/auth.py:17-57 | A missing path or a missing or empty list needs authentication. A listed path does not. Otherwise authentication is needed exactly when no listed entry exempts the path. |
| `Auth.EntryMatches` | 0x02-Session_authentication/api/v1/auth/auth.py:49-55 | The three tests of one loop iteration, in their written order, hold exactly when the entry exempts the path. The `[-1]` index is proved in range: it is reached only for non-empty entries. |
| `Auth.FirstExempting` | 0x02-Session_authentication/api/v1/auth/auth.py:48-57 | The loop stops at an entry that exempts the path, and no earlier entry does. It runs to the end exactly when no entry exempts the path. |
| `Auth.ExactEntryStopsScan` | 0x02-Session_authentication/api/v1/auth/auth.py:45-55 | For a listed path, the scan stops at or before the path's own entry. So the exact-membership test at line 45 never changes the answer. |
| `Auth.RequireAuthOrderIndependent` | 0x02-Session_authentication/api/v1/auth/auth.py:48-57 | Two lists with the same entries give the same answer for every path, whatever their order and repetitions. |
| `Auth.RequireAuthMonotone` | 0x02-Session_authentication/api/v1/auth/auth.py:48-57 | If every entry of one list is in a second list, every path the first exempts is also exempted by the second. |
| `Auth.RequireAuthAppend` | 0x02-Session_authentication/api/v1/auth/auth.py:42-57 | A path needs authentication under `a + b` exactly when it needs it under `a` and under `b`. |
| `Auth.EmptyPathExempt` | 0x02-Session_authentication/api/v1/auth/auth.py:49-50 | The empty path needs no authentication under any non-empty list. |
| `Auth.EmptyEntryExemptsAll` | 0x02-Session_authentication/api/v1/auth/auth.py:51-52 | A list containing the empty entry exempts every present path. |
| `Auth.PrefixOfEntryExempt` | 0x02-Session_authentication/api/v1/auth/auth.py:49-50 | Every prefix of a listed entry, such as `/` for any absolute entry, needs no authentication. |
| `Auth.WildcardEntryExempts` | 0x02-Session_authentication/api/v1/auth/auth.py:49-55 | An entry `w*` exempts exactly the paths comparable with `w`: those that extend `w` and those that `w` extends. |
| `Auth.RequireAuthExamples` | 0x02-Session_authentication/api/v1/auth/auth.py:39-57 | Worked cases: an exact entry, a wildcard that matches and one that does not, and the prefix test in each direction. Also an entry with a trailing `/` that does not cover `/home` but does cover `/`. |
| `Prefixes.ComparableIff` | 0x02-Session_authentication/api/v1/auth/auth.py:49-52 | Agreeing on the common length is the same as one string starting with the other. This is the two-way `startswith` test. |
| `Auth.AuthorizationHeader` | 0x02-Session_authentication/api/v1/auth/auth.py:59-70 | With no request there is no value. Otherwise the result is present exactly when the `Authorization` key is in the headers, and it is that key's value. |
| `Auth.AuthorizationHeaderStored` | 0x02-Session_authentication/api/v1/auth/auth.py:68-69 | A value stored under `Authorization` is the value returned. |
| `Auth.AuthorizationHeaderIgnoresOthers` | 0x02-Session_authentication/api/v1/auth/auth.py:68-69 | Setting any other header, or changing the cookies, does not change the result. |
| `Auth.SessionCookie` | 0x02-Session_authentication/api/v1/auth/auth.py:79-84 | With no request or no configured name there is no value. Otherwise the result is present exactly when a cookie of that name exists, and it is that cookie's value. |
| `Auth.SessionCookieStored` | 0x02-Session_authentication/api/v1/auth/auth.py:82-84 | A cookie stored under the configured name is the value returned. |
| `Auth.CurrentUser` | 0x02-Session_authentication/api/v1/auth/auth.py:72-77 | Never returns a user, whatever the request. |

## Left out

- Flask's `request` object (auth.py:10, 69). Headers and cookies are plain maps, so the header lookup is case-sensitive here, while Flask's header mapping is case-insensitive.
- The read of `SESSION_NAME` from the environment (auth.py:83). The value is an argument instead. An unset variable is `None`, and since cookie names are strings, `cookies.get(None)` finds nothing.
- The commented-out regular-expression matcher and the unused `re` import (auth.py:8, 27-38). They are dead code. That matcher was the only place where a trailing `/` on an entry had a meaning of its own.
- Exclusion lists holding non-string items, and a path that is neither a string nor `None`. Python raises an `AttributeError` or `TypeError` only when the scan reaches such a value; an earlier return answers normally (for instance, a non-string path with no list gets `True` at lines 42-43, and `["/", None]` exempts `/a` at lines 51-52 before reaching `None`), and a tuple of strings is accepted as a path by `str.startswith`. The model's types rule these inputs out.
- Session stores, tokens and user lookup. None of these exist in the class: `current_user` is a stub.
