/**
 * `mpbbCrypt` (`include/utils.h`), literal by literal, as its three sub-tables. A table is written as a decision tree
 * over the byte that indexes it, so that the verifier can evaluate it.
 */
module CryptTables {
  import opened Bytes

  function MpbbR(b: byte): byte {
    if b < 8 then
      (if b < 4 then (if b < 2 then (if b < 1 then 65 else 54) else (if b < 3 then 19 else 98))
      else (if b < 6 then (if b < 5 then 168 else 33) else (if b < 7 then 110 else 187)))
    else if b < 16 then
      (if b < 12 then (if b < 10 then (if b < 9 then 244 else 22) else (if b < 11 then 204 else 4))
      else (if b < 14 then (if b < 13 then 127 else 100) else (if b < 15 then 232 else 93)))
    else if b < 24 then
      (if b < 20 then (if b < 18 then (if b < 17 then 30 else 242) else (if b < 19 then 203 else 42))
      else (if b < 22 then (if b < 21 then 116 else 197) else (if b < 23 then 94 else 53)))
    else if b < 32 then
      (if b < 28 then (if b < 26 then (if b < 25 then 210 else 149) else (if b < 27 then 71 else 158))
      else (if b < 30 then (if b < 29 then 150 else 45) else (if b < 31 then 154 else 136)))
    else if b < 40 then
      (if b < 36 then (if b < 34 then (if b < 33 then 76 else 125) else (if b < 35 then 132 else 63))
      else (if b < 38 then (if b < 37 then 219 else 172) else (if b < 39 then 49 else 182)))
    else if b < 48 then
      (if b < 44 then (if b < 42 then (if b < 41 then 72 else 95) else (if b < 43 then 246 else 196))
      else (if b < 46 then (if b < 45 then 216 else 57) else (if b < 47 then 139 else 231)))
    else if b < 56 then
      (if b < 52 then (if b < 50 then (if b < 49 then 35 else 59) else (if b < 51 then 56 else 142))
      else (if b < 54 then (if b < 53 then 200 else 193) else (if b < 55 then 223 else 37)))
    else if b < 64 then
      (if b < 60 then (if b < 58 then (if b < 57 then 177 else 32) else (if b < 59 then 165 else 70))
      else (if b < 62 then (if b < 61 then 96 else 78) else (if b < 63 then 156 else 251)))
    else if b < 72 then
      (if b < 68 then (if b < 66 then (if b < 65 then 170 else 211) else (if b < 67 then 86 else 81))
      else (if b < 70 then (if b < 69 then 69 else 124) else (if b < 71 then 85 else 0)))
    else if b < 80 then
      (if b < 76 then (if b < 74 then (if b < 73 then 7 else 201) else (if b < 75 then 43 else 157))
      else (if b < 78 then (if b < 77 then 133 else 155) else (if b < 79 then 9 else 160)))
    else if b < 88 then
      (if b < 84 then (if b < 82 then (if b < 81 then 143 else 173) else (if b < 83 then 179 else 15))
      else (if b < 86 then (if b < 85 then 99 else 171) else (if b < 87 then 137 else 75)))
    else if b < 96 then
      (if b < 92 then (if b < 90 then (if b < 89 then 215 else 167) else (if b < 91 then 21 else 90))
      else (if b < 94 then (if b < 93 then 113 else 102) else (if b < 95 then 66 else 191)))
    else if b < 104 then
      (if b < 100 then (if b < 98 then (if b < 97 then 38 else 74) else (if b < 99 then 107 else 152))
      else (if b < 102 then (if b < 101 then 250 else 234) else (if b < 103 then 119 else 83)))
    else if b < 112 then
      (if b < 108 then (if b < 106 then (if b < 105 then 178 else 112) else (if b < 107 then 5 else 44))
      else (if b < 110 then (if b < 109 then 253 else 89) else (if b < 111 then 58 else 134)))
    else if b < 120 then
      (if b < 116 then (if b < 114 then (if b < 113 then 126 else 206) else (if b < 115 then 6 else 235))
      else (if b < 118 then (if b < 117 then 130 else 120) else (if b < 119 then 87 else 199)))
    else if b < 128 then
      (if b < 124 then (if b < 122 then (if b < 121 then 141 else 67) else (if b < 123 then 175 else 180))
      else (if b < 126 then (if b < 125 then 28 else 212) else (if b < 127 then 91 else 205)))
    else if b < 136 then
      (if b < 132 then (if b < 130 then (if b < 129 then 226 else 233) else (if b < 131 then 39 else 79))
      else (if b < 134 then (if b < 133 then 195 else 8) else (if b < 135 then 114 else 128)))
    else if b < 144 then
      (if b < 140 then (if b < 138 then (if b < 137 then 207 else 176) else (if b < 139 then 239 else 245))
      else (if b < 142 then (if b < 141 then 40 else 109) else (if b < 143 then 190 else 48)))
    else if b < 152 then
      (if b < 148 then (if b < 146 then (if b < 145 then 77 else 52) else (if b < 147 then 146 else 213))
      else (if b < 150 then (if b < 149 then 14 else 60) else (if b < 151 then 34 else 50)))
    else if b < 160 then
      (if b < 156 then (if b < 154 then (if b < 153 then 229 else 228) else (if b < 155 then 249 else 159))
      else (if b < 158 then (if b < 157 then 194 else 209) else (if b < 159 then 10 else 129)))
    else if b < 168 then
      (if b < 164 then (if b < 162 then (if b < 161 then 18 else 225) else (if b < 163 then 238 else 145))
      else (if b < 166 then (if b < 165 then 131 else 118) else (if b < 167 then 227 else 151)))
    else if b < 176 then
      (if b < 172 then (if b < 170 then (if b < 169 then 230 else 97) else (if b < 171 then 138 else 23))
      else (if b < 174 then (if b < 173 then 121 else 164) else (if b < 175 then 183 else 220)))
    else if b < 184 then
      (if b < 180 then (if b < 178 then (if b < 177 then 144 else 122) else (if b < 179 then 92 else 140))
      else (if b < 182 then (if b < 181 then 2 else 166) else (if b < 183 then 202 else 105)))
    else if b < 192 then
      (if b < 188 then (if b < 186 then (if b < 185 then 222 else 80) else (if b < 187 then 26 else 17))
      else (if b < 190 then (if b < 189 then 147 else 185) else (if b < 191 then 82 else 135)))
    else if b < 200 then
      (if b < 196 then (if b < 194 then (if b < 193 then 88 else 252) else (if b < 195 then 237 else 29))
      else (if b < 198 then (if b < 197 then 55 else 73) else (if b < 199 then 27 else 106)))
    else if b < 208 then
      (if b < 204 then (if b < 202 then (if b < 201 then 224 else 41) else (if b < 203 then 51 else 153))
      else (if b < 206 then (if b < 205 then 189 else 108) else (if b < 207 then 217 else 148)))
    else if b < 216 then
      (if b < 212 then (if b < 210 then (if b < 209 then 243 else 64) else (if b < 211 then 84 else 111))
      else (if b < 214 then (if b < 213 then 240 else 198) else (if b < 215 then 115 else 184)))
    else if b < 224 then
      (if b < 220 then (if b < 218 then (if b < 217 then 214 else 62) else (if b < 219 then 101 else 24))
      else (if b < 222 then (if b < 221 then 68 else 31) else (if b < 223 then 221 else 103)))
    else if b < 232 then
      (if b < 228 then (if b < 226 then (if b < 225 then 16 else 241) else (if b < 227 then 12 else 25))
      else (if b < 230 then (if b < 229 then 236 else 174) else (if b < 231 then 3 else 161)))
    else if b < 240 then
      (if b < 236 then (if b < 234 then (if b < 233 then 20 else 123) else (if b < 235 then 169 else 11))
      else (if b < 238 then (if b < 237 then 255 else 248) else (if b < 239 then 163 else 192)))
    else if b < 248 then
      (if b < 244 then (if b < 242 then (if b < 241 then 162 else 1) else (if b < 243 then 247 else 46))
      else (if b < 246 then (if b < 245 then 188 else 36) else (if b < 247 then 104 else 117)))
    else
      (if b < 252 then (if b < 250 then (if b < 249 then 13 else 254) else (if b < 251 then 186 else 47))
      else (if b < 254 then (if b < 253 then 181 else 208) else (if b < 255 then 218 else 61)))
  }

  function MpbbS(b: byte): byte {
    if b < 8 then
      (if b < 4 then (if b < 2 then (if b < 1 then 20 else 83) else (if b < 3 then 15 else 86))
      else (if b < 6 then (if b < 5 then 179 else 200) else (if b < 7 then 122 else 156)))
    else if b < 16 then
      (if b < 12 then (if b < 10 then (if b < 9 then 235 else 101) else (if b < 11 then 72 else 23))
      else (if b < 14 then (if b < 13 then 22 else 21) else (if b < 15 then 159 else 2)))
    else if b < 24 then
      (if b < 20 then (if b < 18 then (if b < 17 then 204 else 84) else (if b < 19 then 124 else 131))
      else (if b < 22 then (if b < 21 then 0 else 13) else (if b < 23 then 12 else 11)))
    else if b < 32 then
      (if b < 28 then (if b < 26 then (if b < 25 then 162 else 98) else (if b < 27 then 168 else 118))
      else (if b < 30 then (if b < 29 then 219 else 217) else (if b < 31 then 237 else 199)))
    else if b < 40 then
      (if b < 36 then (if b < 34 then (if b < 33 then 197 else 164) else (if b < 35 then 220 else 172))
      else (if b < 38 then (if b < 37 then 133 else 116) else (if b < 39 then 214 else 208)))
    else if b < 48 then
      (if b < 44 then (if b < 42 then (if b < 41 then 167 else 155) else (if b < 43 then 174 else 154))
      else (if b < 46 then (if b < 45 then 150 else 113) else (if b < 47 then 102 else 195)))
    else if b < 56 then
      (if b < 52 then (if b < 50 then (if b < 49 then 99 else 153) else (if b < 51 then 184 else 221))
      else (if b < 54 then (if b < 53 then 115 else 146) else (if b < 55 then 142 else 132)))
    else if b < 64 then
      (if b < 60 then (if b < 58 then (if b < 57 then 125 else 165) else (if b < 59 then 94 else 209))
      else (if b < 62 then (if b < 61 then 93 else 147) else (if b < 63 then 177 else 87)))
    else if b < 72 then
      (if b < 68 then (if b < 66 then (if b < 65 then 81 else 80) else (if b < 67 then 128 else 137))
      else (if b < 70 then (if b < 69 then 82 else 148) else (if b < 71 then 79 else 78)))
    else if b < 80 then
      (if b < 76 then (if b < 74 then (if b < 73 then 10 else 107) else (if b < 75 then 188 else 141))
      else (if b < 78 then (if b < 77 then 127 else 110) else (if b < 79 then 71 else 70)))
    else if b < 88 then
      (if b < 84 then (if b < 82 then (if b < 81 then 65 else 64) else (if b < 83 then 68 else 1))
      else (if b < 86 then (if b < 85 then 17 else 203) else (if b < 87 then 3 else 63)))
    else if b < 96 then
      (if b < 92 then (if b < 90 then (if b < 89 then 247 else 244) else (if b < 91 then 225 else 169))
      else (if b < 94 then (if b < 93 then 143 else 60) else (if b < 95 then 58 else 249)))
    else if b < 104 then
      (if b < 100 then (if b < 98 then (if b < 97 then 251 else 240) else (if b < 99 then 25 else 48))
      else (if b < 102 then (if b < 101 then 130 else 9) else (if b < 103 then 46 else 201)))
    else if b < 112 then
      (if b < 108 then (if b < 106 then (if b < 105 then 157 else 160) else (if b < 107 then 134 else 73))
      else (if b < 110 then (if b < 109 then 238 else 111) else (if b < 111 then 77 else 109)))
    else if b < 120 then
      (if b < 116 then (if b < 114 then (if b < 113 then 196 else 45) else (if b < 115 then 129 else 52))
      else (if b < 118 then (if b < 117 then 37 else 135) else (if b < 119 then 27 else 136)))
    else if b < 128 then
      (if b < 124 then (if b < 122 then (if b < 121 then 170 else 252) else (if b < 123 then 6 else 161))
      else (if b < 126 then (if b < 125 then 18 else 56) else (if b < 127 then 253 else 76)))
    else if b < 136 then
      (if b < 132 then (if b < 130 then (if b < 129 then 66 else 114) else (if b < 131 then 100 else 19))
      else (if b < 134 then (if b < 133 then 55 else 36) else (if b < 135 then 106 else 117)))
    else if b < 144 then
      (if b < 140 then (if b < 138 then (if b < 137 then 119 else 67) else (if b < 139 then 255 else 230))
      else (if b < 142 then (if b < 141 then 180 else 75) else (if b < 143 then 54 else 92)))
    else if b < 152 then
      (if b < 148 then (if b < 146 then (if b < 145 then 228 else 216) else (if b < 147 then 53 else 61))
      else (if b < 150 then (if b < 149 then 69 else 185) else (if b < 151 then 44 else 236)))
    else if b < 160 then
      (if b < 156 then (if b < 154 then (if b < 153 then 183 else 49) else (if b < 155 then 43 else 41))
      else (if b < 158 then (if b < 157 then 7 else 104) else (if b < 159 then 163 else 14)))
    else if b < 168 then
      (if b < 164 then (if b < 162 then (if b < 161 then 105 else 123) else (if b < 163 then 24 else 158))
      else (if b < 166 then (if b < 165 then 33 else 57) else (if b < 167 then 190 else 40)))
    else if b < 176 then
      (if b < 172 then (if b < 170 then (if b < 169 then 26 else 91) else (if b < 171 then 120 else 245))
      else (if b < 174 then (if b < 173 then 35 else 202) else (if b < 175 then 42 else 176)))
    else if b < 184 then
      (if b < 180 then (if b < 178 then (if b < 177 then 175 else 62) else (if b < 179 then 254 else 4))
      else (if b < 182 then (if b < 181 then 140 else 231) else (if b < 183 then 229 else 152)))
    else if b < 192 then
      (if b < 188 then (if b < 186 then (if b < 185 then 50 else 149) else (if b < 187 then 211 else 246))
      else (if b < 190 then (if b < 189 then 74 else 232) else (if b < 191 then 166 else 234)))
    else if b < 200 then
      (if b < 196 then (if b < 194 then (if b < 193 then 233 else 243) else (if b < 195 then 213 else 47))
      else (if b < 198 then (if b < 197 then 112 else 32) else (if b < 199 then 242 else 31)))
    else if b < 208 then
      (if b < 204 then (if b < 202 then (if b < 201 then 5 else 103) else (if b < 203 then 173 else 85))
      else (if b < 206 then (if b < 205 then 16 else 206) else (if b < 207 then 205 else 227)))
    else if b < 216 then
      (if b < 212 then (if b < 210 then (if b < 209 then 39 else 59) else (if b < 211 then 218 else 186))
      else (if b < 214 then (if b < 213 then 215 else 194) else (if b < 215 then 38 else 212)))
    else if b < 224 then
      (if b < 220 then (if b < 218 then (if b < 217 then 145 else 29) else (if b < 219 then 210 else 28))
      else (if b < 222 then (if b < 221 then 34 else 51) else (if b < 223 then 248 else 250)))
    else if b < 232 then
      (if b < 228 then (if b < 226 then (if b < 225 then 241 else 90) else (if b < 227 then 239 else 207))
      else (if b < 230 then (if b < 229 then 144 else 182) else (if b < 231 then 139 else 181)))
    else if b < 240 then
      (if b < 236 then (if b < 234 then (if b < 233 then 189 else 192) else (if b < 235 then 191 else 8))
      else (if b < 238 then (if b < 237 then 151 else 30) else (if b < 239 then 108 else 226)))
    else if b < 248 then
      (if b < 244 then (if b < 242 then (if b < 241 then 97 else 224) else (if b < 243 then 198 else 193))
      else (if b < 246 then (if b < 245 then 89 else 171) else (if b < 247 then 187 else 88)))
    else
      (if b < 252 then (if b < 250 then (if b < 249 then 222 else 95) else (if b < 251 then 223 else 96))
      else (if b < 254 then (if b < 253 then 121 else 126) else (if b < 255 then 178 else 138)))
  }

  function MpbbI(b: byte): byte {
    if b < 8 then
      (if b < 4 then (if b < 2 then (if b < 1 then 71 else 241) else (if b < 3 then 180 else 230))
      else (if b < 6 then (if b < 5 then 11 else 106) else (if b < 7 then 114 else 72)))
    else if b < 16 then
      (if b < 12 then (if b < 10 then (if b < 9 then 133 else 78) else (if b < 11 then 158 else 235))
      else (if b < 14 then (if b < 13 then 226 else 248) else (if b < 15 then 148 else 83)))
    else if b < 24 then
      (if b < 20 then (if b < 18 then (if b < 17 then 224 else 187) else (if b < 19 then 160 else 2))
      else (if b < 22 then (if b < 21 then 232 else 90) else (if b < 23 then 9 else 171)))
    else if b < 32 then
      (if b < 28 then (if b < 26 then (if b < 25 then 219 else 227) else (if b < 27 then 186 else 198))
      else (if b < 30 then (if b < 29 then 124 else 195) else (if b < 31 then 16 else 221)))
    else if b < 40 then
      (if b < 36 then (if b < 34 then (if b < 33 then 57 else 5) else (if b < 35 then 150 else 48))
      else (if b < 38 then (if b < 37 then 245 else 55) else (if b < 39 then 96 else 130)))
    else if b < 48 then
      (if b < 44 then (if b < 42 then (if b < 41 then 140 else 201) else (if b < 43 then 19 else 74))
      else (if b < 46 then (if b < 45 then 107 else 29) else (if b < 47 then 243 else 251)))
    else if b < 56 then
      (if b < 52 then (if b < 50 then (if b < 49 then 143 else 38) else (if b < 51 then 151 else 202))
      else (if b < 54 then (if b < 53 then 145 else 23) else (if b < 55 then 1 else 196)))
    else if b < 64 then
      (if b < 60 then (if b < 58 then (if b < 57 then 50 else 45) else (if b < 59 then 110 else 49))
      else (if b < 62 then (if b < 61 then 149 else 255) else (if b < 63 then 217 else 35)))
    else if b < 72 then
      (if b < 68 then (if b < 66 then (if b < 65 then 209 else 0) else (if b < 67 then 94 else 121))
      else (if b < 70 then (if b < 69 then 220 else 68) else (if b < 71 then 59 else 26)))
    else if b < 80 then
      (if b < 76 then (if b < 74 then (if b < 73 then 40 else 197) else (if b < 75 then 97 else 87))
      else (if b < 78 then (if b < 77 then 32 else 144) else (if b < 79 then 61 else 131)))
    else if b < 88 then
      (if b < 84 then (if b < 82 then (if b < 81 then 185 else 67) else (if b < 83 then 190 else 103))
      else (if b < 86 then (if b < 85 then 210 else 70) else (if b < 87 then 66 else 118)))
    else if b < 96 then
      (if b < 92 then (if b < 90 then (if b < 89 then 192 else 109) else (if b < 91 then 91 else 126))
      else (if b < 94 then (if b < 93 then 178 else 15) else (if b < 95 then 22 else 41)))
    else if b < 104 then
      (if b < 100 then (if b < 98 then (if b < 97 then 60 else 169) else (if b < 99 then 3 else 84))
      else (if b < 102 then (if b < 101 then 13 else 218) else (if b < 103 then 93 else 223)))
    else if b < 112 then
      (if b < 108 then (if b < 106 then (if b < 105 then 246 else 183) else (if b < 107 then 199 else 98))
      else (if b < 110 then (if b < 109 then 205 else 141) else (if b < 111 then 6 else 211)))
    else if b < 120 then
      (if b < 116 then (if b < 114 then (if b < 113 then 105 else 92) else (if b < 115 then 134 else 214))
      else (if b < 118 then (if b < 117 then 20 else 247) else (if b < 119 then 165 else 102)))
    else if b < 128 then
      (if b < 124 then (if b < 122 then (if b < 121 then 117 else 172) else (if b < 123 then 177 else 233))
      else (if b < 126 then (if b < 125 then 69 else 33) else (if b < 127 then 112 else 12)))
    else if b < 136 then
      (if b < 132 then (if b < 130 then (if b < 129 then 135 else 159) else (if b < 131 then 116 else 164))
      else (if b < 134 then (if b < 133 then 34 else 76) else (if b < 135 then 111 else 191)))
    else if b < 144 then
      (if b < 140 then (if b < 138 then (if b < 137 then 31 else 86) else (if b < 139 then 170 else 46))
      else (if b < 142 then (if b < 141 then 179 else 120) else (if b < 143 then 51 else 80)))
    else if b < 152 then
      (if b < 148 then (if b < 146 then (if b < 145 then 176 else 163) else (if b < 147 then 146 else 188))
      else (if b < 150 then (if b < 149 then 207 else 25) else (if b < 151 then 28 else 167)))
    else if b < 160 then
      (if b < 156 then (if b < 154 then (if b < 153 then 99 else 203) else (if b < 155 then 30 else 77))
      else (if b < 158 then (if b < 157 then 62 else 75) else (if b < 159 then 27 else 155)))
    else if b < 168 then
      (if b < 164 then (if b < 162 then (if b < 161 then 79 else 231) else (if b < 163 then 240 else 238))
      else (if b < 166 then (if b < 165 then 173 else 58) else (if b < 167 then 181 else 89)))
    else if b < 176 then
      (if b < 172 then (if b < 170 then (if b < 169 then 4 else 234) else (if b < 171 then 64 else 85))
      else (if b < 174 then (if b < 173 then 37 else 81) else (if b < 175 then 229 else 122)))
    else if b < 184 then
      (if b < 180 then (if b < 178 then (if b < 177 then 137 else 56) else (if b < 179 then 104 else 82))
      else (if b < 182 then (if b < 181 then 123 else 252) else (if b < 183 then 39 else 174)))
    else if b < 192 then
      (if b < 188 then (if b < 186 then (if b < 185 then 215 else 189) else (if b < 187 then 250 else 7))
      else (if b < 190 then (if b < 189 then 244 else 204) else (if b < 191 then 142 else 95)))
    else if b < 200 then
      (if b < 196 then (if b < 194 then (if b < 193 then 239 else 53) else (if b < 195 then 156 else 132))
      else (if b < 198 then (if b < 197 then 43 else 21) else (if b < 199 then 213 else 119)))
    else if b < 208 then
      (if b < 204 then (if b < 202 then (if b < 201 then 52 else 73) else (if b < 203 then 182 else 18))
      else (if b < 206 then (if b < 205 then 10 else 127) else (if b < 207 then 113 else 136)))
    else if b < 216 then
      (if b < 212 then (if b < 210 then (if b < 209 then 253 else 157) else (if b < 211 then 24 else 65))
      else (if b < 214 then (if b < 213 then 125 else 147) else (if b < 215 then 216 else 88)))
    else if b < 224 then
      (if b < 220 then (if b < 218 then (if b < 217 then 44 else 206) else (if b < 219 then 254 else 36))
      else (if b < 222 then (if b < 221 then 175 else 222) else (if b < 223 then 184 else 54)))
    else if b < 232 then
      (if b < 228 then (if b < 226 then (if b < 225 then 200 else 161) else (if b < 227 then 128 else 166))
      else (if b < 230 then (if b < 229 then 153 else 152) else (if b < 231 then 168 else 47)))
    else if b < 240 then
      (if b < 236 then (if b < 234 then (if b < 233 then 14 else 129) else (if b < 235 then 101 else 115))
      else (if b < 238 then (if b < 237 then 228 else 194) else (if b < 239 then 162 else 138)))
    else if b < 248 then
      (if b < 244 then (if b < 242 then (if b < 241 then 212 else 225) else (if b < 243 then 17 else 208))
      else (if b < 246 then (if b < 245 then 8 else 139) else (if b < 247 then 42 else 242)))
    else
      (if b < 252 then (if b < 250 then (if b < 249 then 237 else 154) else (if b < 251 then 100 else 63))
      else (if b < 254 then (if b < 253 then 193 else 108) else (if b < 255 then 249 else 236)))
  }

  lemma InverseOfR0(b: byte)
    requires 0 <= b < 64
    ensures MpbbI(MpbbR(b)) == b
  {
  }

  lemma InverseOfR1(b: byte)
    requires 64 <= b < 128
    ensures MpbbI(MpbbR(b)) == b
  {
  }

  lemma InverseOfR2(b: byte)
    requires 128 <= b < 192
    ensures MpbbI(MpbbR(b)) == b
  {
  }

  lemma InverseOfR3(b: byte)
    requires 192 <= b < 256
    ensures MpbbI(MpbbR(b)) == b
  {
  }

  /** The third table undoes the first. */
  lemma InverseOfR(b: byte)
    ensures MpbbI(MpbbR(b)) == b
  {
    if b < 64 {
      InverseOfR0(b);
    } else if b < 128 {
      InverseOfR1(b);
    } else if b < 192 {
      InverseOfR2(b);
    } else {
      InverseOfR3(b);
    }
  }

  lemma InverseOfI0(b: byte)
    requires 0 <= b < 64
    ensures MpbbR(MpbbI(b)) == b
  {
  }

  lemma InverseOfI1(b: byte)
    requires 64 <= b < 128
    ensures MpbbR(MpbbI(b)) == b
  {
  }

  lemma InverseOfI2(b: byte)
    requires 128 <= b < 192
    ensures MpbbR(MpbbI(b)) == b
  {
  }

  lemma InverseOfI3(b: byte)
    requires 192 <= b < 256
    ensures MpbbR(MpbbI(b)) == b
  {
  }

  /** The first table undoes the third. */
  lemma InverseOfI(b: byte)
    ensures MpbbR(MpbbI(b)) == b
  {
    if b < 64 {
      InverseOfI0(b);
    } else if b < 128 {
      InverseOfI1(b);
    } else if b < 192 {
      InverseOfI2(b);
    } else {
      InverseOfI3(b);
    }
  }

  lemma InvolutionS0(b: byte)
    requires 0 <= b < 64
    ensures MpbbS(MpbbS(b)) == b
  {
  }

  lemma InvolutionS1(b: byte)
    requires 64 <= b < 128
    ensures MpbbS(MpbbS(b)) == b
  {
  }

  lemma InvolutionS2(b: byte)
    requires 128 <= b < 192
    ensures MpbbS(MpbbS(b)) == b
  {
  }

  lemma InvolutionS3(b: byte)
    requires 192 <= b < 256
    ensures MpbbS(MpbbS(b)) == b
  {
  }

  /** The second table undoes itself. */
  lemma InvolutionS(b: byte)
    ensures MpbbS(MpbbS(b)) == b
  {
    if b < 64 {
      InvolutionS0(b);
    } else if b < 128 {
      InvolutionS1(b);
    } else if b < 192 {
      InvolutionS2(b);
    } else {
      InvolutionS3(b);
    }
  }
}
