/**
  The scanner tables of configfile-scan.c. Each array is written as a search tree over its runs of
  equal entries: the leaf reached for an index is the array's entry there. Indexes past the end of
  an array read its last entry.
 */
module FlexTables {

  // yy_accept (configfile-scan.c:395-402): the rule a state accepts, 0 for none, 13 for the
  // end-of-buffer state 3.
  function YyAccept(i: int): int {
    if i < 18 then (
      if i < 10 then (
        if i < 5 then (
          if i < 3 then 0 else if i < 4 then 13 else 11
        ) else (
          if i < 7 then (if i < 6 then 2 else 1) else if i < 8 then 3 else 11
        )
      ) else (
        if i < 14 then (
          if i < 11 then 9 else if i < 13 then 8 else 10
        ) else (
          if i < 16 then (if i < 15 then 4 else 2) else if i < 17 then 3 else 0
        )
      )
    ) else (
      if i < 27 then (
        if i < 21 then (
          if i < 19 then 6 else if i < 20 then 0 else 9
        ) else (
          if i < 24 then (if i < 23 then 8 else 9) else if i < 25 then 0 else 8
        )
      ) else (
        if i < 33 then (
          if i < 31 then (if i < 29 then 7 else 4) else if i < 32 then 0 else 9
        ) else (
          if i < 36 then (if i < 35 then 8 else 7) else if i < 40 then 5 else 0
        )
      )
    )
  }

  // yy_meta: the class that a class is folded to inside a template state (41 to 47).
  function YyMeta(i: int): int {
    if i < 13 then (
      if i < 4 then (
        if i < 1 then 0 else if i < 3 then 1 else 2
      ) else (
        if i < 10 then (if i < 7 then 1 else 3) else if i < 12 then 4 else 1
      )
    ) else (
      if i < 16 then (
        if i < 14 then 5 else if i < 15 then 6 else 5
      ) else (
        if i < 18 then (if i < 17 then 1 else 3) else if i < 19 then 5 else 3
      )
    )
  }

  // yy_base: where a state's row starts in yy_nxt and yy_chk.
  function YyBase(i: int): int {
    if i < 24 then (
      if i < 13 then (
        if i < 7 then (
          if i < 4 then (if i < 3 then 0 else 50) else if i < 5 then 148 else if i < 6 then 43 else 148
        ) else (
          if i < 10 then (
            if i < 8 then 0 else if i < 9 then 15 else 24
          ) else (
            if i < 11 then 30 else if i < 12 then 28 else 22
          )
        )
      ) else (
        if i < 18 then (
          if i < 15 then (if i < 14 then 148 else 40) else if i < 16 then 35 else if i < 17 then 0 else 17
        ) else (
          if i < 21 then (
            if i < 19 then 25 else if i < 20 then 0 else 15
          ) else (
            if i < 22 then 0 else if i < 23 then 10 else 0
          )
        )
      )
    ) else (
      if i < 36 then (
        if i < 29 then (
          if i < 26 then (if i < 25 then 52 else 0) else if i < 27 then 54 else if i < 28 then 10 else 66
        ) else (
          if i < 32 then (
            if i < 30 then 79 else if i < 31 then 0 else 13
          ) else (
            if i < 33 then 15 else if i < 35 then 0 else 4
          )
        )
      ) else (
        if i < 42 then (
          if i < 38 then (if i < 37 then 90 else 101) else if i < 40 then 0 else if i < 41 then 148 else 118
        ) else (
          if i < 45 then (
            if i < 43 then 124 else if i < 44 then 127 else 131
          ) else (
            if i < 46 then 133 else if i < 47 then 137 else 141
          )
        )
      )
    )
  }

  // yy_def: the state that a row falls back to.
  function YyDef(i: int): int {
    if i < 20 then (
      if i < 11 then (
        if i < 7 then (
          if i < 2 then (if i < 1 then 0 else 40) else if i < 3 then 1 else 40
        ) else (
          if i < 9 then (if i < 8 then 41 else 42) else if i < 10 then 40 else 43
        )
      ) else (
        if i < 15 then (
          if i < 13 then (if i < 12 then 40 else 11) else if i < 14 then 40 else 44
        ) else (
          if i < 17 then (if i < 16 then 40 else 41) else if i < 18 then 42 else if i < 19 then 40 else 42
        )
      )
    ) else (
      if i < 29 then (
        if i < 25 then (
          if i < 23 then (if i < 21 then 43 else 11) else if i < 24 then 20 else 40
        ) else (
          if i < 27 then (if i < 26 then 45 else 40) else if i < 28 then 46 else 40
        )
      ) else (
        if i < 35 then (
          if i < 31 then (if i < 30 then 44 else 29) else if i < 33 then 40 else 26
        ) else (
          if i < 38 then (if i < 36 then 46 else 47) else if i < 40 then 37 else if i < 41 then 0 else 40
        )
      )
    )
  }

  // yy_nxt: the successor stored at a position.
  function YyNxt(i: int): int {
    if i < 58 then (
      if i < 28 then (
        if i < 11 then (
          if i < 5 then (
            if i < 2 then (if i < 1 then 0 else 4) else if i < 3 then 5 else if i < 4 then 6 else 7
          ) else (
            if i < 8 then (if i < 6 then 8 else 9) else if i < 9 then 10 else if i < 10 then 4 else 11
          )
        ) else (
          if i < 20 then (
            if i < 13 then (if i < 12 then 12 else 13) else if i < 16 then 14 else if i < 17 then 4 else 14
          ) else (
            if i < 22 then (if i < 21 then 18 else 35) else if i < 23 then 18 else if i < 27 then 32 else 35
          )
        )
      ) else (
        if i < 38 then (
          if i < 33 then (
            if i < 30 then (if i < 29 then 25 else 24) else if i < 31 then 17 else if i < 32 then 19 else 20
          ) else (
            if i < 35 then (if i < 34 then 19 else 21) else if i < 36 then 22 else if i < 37 then 20 else 15
          )
        ) else (
          if i < 47 then (
            if i < 44 then (if i < 40 then 22 else 25) else if i < 45 then 24 else if i < 46 then 15 else 26
          ) else (
            if i < 49 then (if i < 48 then 27 else 28) else if i < 50 then 27 else if i < 57 then 40 else 30
          )
        )
      )
    ) else (
      if i < 97 then (
        if i < 78 then (
          if i < 67 then (
            if i < 62 then (if i < 60 then 31 else 40) else if i < 64 then 32 else if i < 66 then 33 else 40
          ) else (
            if i < 70 then (if i < 69 then 34 else 25) else if i < 72 then 40 else if i < 73 then 25 else 27
          )
        ) else (
          if i < 86 then (
            if i < 82 then (if i < 79 then 40 else 36) else if i < 83 then 40 else if i < 84 then 37 else 36
          ) else (
            if i < 88 then (if i < 87 then 27 else 28) else if i < 89 then 27 else if i < 96 then 40 else 30
          )
        )
      ) else (
        if i < 126 then (
          if i < 118 then (
            if i < 107 then (if i < 100 then 27 else 40) else if i < 108 then 39 else if i < 111 then 27 else 40
          ) else (
            if i < 120 then (if i < 119 then 39 else 16) else if i < 121 then 40 else if i < 125 then 16 else 17
          )
        ) else (
          if i < 134 then (
            if i < 131 then (if i < 127 then 40 else 17) else if i < 132 then 23 else if i < 133 then 40 else 23
          ) else (
            if i < 144 then (
              if i < 138 then 29 else if i < 140 then 25 else 27
            ) else (
              if i < 148 then 38 else if i < 149 then 3 else 40
            )
          )
        )
      )
    )
  }

  // yy_chk: the state that owns a position.
  function YyChk(i: int): int {
    if i < 66 then (
      if i < 36 then (
        if i < 27 then (
          if i < 21 then (
            if i < 1 then 0 else if i < 20 then 1 else 8
          ) else (
            if i < 23 then (if i < 22 then 35 else 17) else if i < 25 then 31 else 32
          )
        ) else (
          if i < 31 then (
            if i < 29 then (if i < 28 then 27 else 22) else if i < 30 then 20 else 18
          ) else (
            if i < 33 then (if i < 32 then 8 else 9) else if i < 34 then 17 else 9
          )
        )
      ) else (
        if i < 47 then (
          if i < 41 then (
            if i < 38 then (if i < 37 then 11 else 15) else if i < 40 then 11 else 12
          ) else (
            if i < 45 then (if i < 44 then 11 else 10) else if i < 46 then 5 else 11
          )
        ) else (
          if i < 58 then (
            if i < 51 then (if i < 50 then 14 else 3) else if i < 57 then 0 else 14
          ) else (
            if i < 62 then (if i < 60 then 24 else 0) else if i < 64 then 24 else 26
          )
        )
      )
    ) else (
      if i < 111 then (
        if i < 83 then (
          if i < 73 then (
            if i < 70 then (if i < 67 then 0 else 26) else if i < 72 then 0 else 26
          ) else (
            if i < 79 then (if i < 78 then 28 else 0) else if i < 82 then 28 else 0
          )
        ) else (
          if i < 97 then (
            if i < 89 then (if i < 86 then 28 else 29) else if i < 96 then 0 else 29
          ) else (
            if i < 107 then (if i < 100 then 36 else 0) else if i < 108 then 36 else 37
          )
        )
      ) else (
        if i < 131 then (
          if i < 121 then (
            if i < 119 then (if i < 118 then 0 else 37) else if i < 120 then 41 else 0
          ) else (
            if i < 126 then (if i < 125 then 41 else 42) else if i < 127 then 0 else 42
          )
        ) else (
          if i < 138 then (
            if i < 133 then (if i < 132 then 43 else 0) else if i < 134 then 43 else 44
          ) else (
            if i < 144 then (if i < 140 then 45 else 46) else if i < 148 then 47 else 40
          )
        )
      )
    )
  }

  // yy_ec: the equivalence class of a byte. Bytes 128 to 255, and in this model any larger code,
  // share class 19.
  function YyEc(i: int): int {
    if i < 58 then (
      if i < 36 then (
        if i < 13 then (
          if i < 9 then (if i < 1 then 0 else 1) else if i < 10 then 2 else if i < 11 then 3 else 1
        ) else (
          if i < 32 then (if i < 14 then 2 else 1) else if i < 33 then 2 else if i < 35 then 1 else 4
        )
      ) else (
        if i < 45 then (
          if i < 40 then (if i < 39 then 1 else 5) else if i < 43 then 1 else if i < 44 then 6 else 1
        ) else (
          if i < 47 then (if i < 46 then 7 else 8) else if i < 48 then 9 else if i < 49 then 10 else 11
        )
      )
    ) else (
      if i < 93 then (
        if i < 69 then (
          if i < 61 then (if i < 59 then 9 else 1) else if i < 62 then 12 else if i < 65 then 1 else 13
        ) else (
          if i < 71 then (if i < 70 then 14 else 13) else if i < 91 then 15 else if i < 92 then 1 else 16
        )
      ) else (
        if i < 102 then (
          if i < 96 then (if i < 95 then 1 else 17) else if i < 97 then 1 else if i < 101 then 13 else 14
        ) else (
          if i < 121 then (
            if i < 103 then 13 else if i < 120 then 15 else 18
          ) else (
            if i < 123 then 15 else if i < 128 then 1 else 19
          )
        )
      )
    )
  }
}
